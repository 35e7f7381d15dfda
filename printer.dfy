/**
  The tree printer: a sideways diagram of the tree, one line per node.  The
  right subtree is drawn first, then the node's own line, then the left
  subtree; each line is the accumulated prefix, a branch glyph and the value.
 */
module TreePrinter {
  import opened Trees
  import opened Sequences

  /** The glyph of a node printed with `isLeft` true. */
  const SlashGlyph: string := " /--- "
  /** The glyph of a node printed with `isLeft` false (one backslash). */
  const BackslashGlyph: string := " \\--- "
  /** The two 8-character prefix fragments. */
  const Blank: string := "        "
  const Bar: string := " |      "

  function Glyph(isLeft: bool): string {
    if isLeft then SlashGlyph else BackslashGlyph
  }

  /** The line of one node: prefix, glyph, value, newline. */
  function NodeLine(prefix: string, isLeft: bool, value: string): string {
    prefix + Glyph(isLeft) + value + "\n"
  }

  /** The diagram of `node` under `prefix`. */
  function PrintTree(node: Tree, prefix: string, isLeft: bool): (r: string)
    ensures r == [] <==> node == Nil
    ensures node.Node? && node.left == Nil && node.right == Nil ==>
      r == NodeLine(prefix, isLeft, node.value)
    decreases node
  {
    if node == Nil then ""
    else
      PrintTree(node.right, prefix + (if isLeft then Blank else Bar), false)
      + NodeLine(prefix, isLeft, node.value)
      + PrintTree(node.left, prefix + (if isLeft then Bar else Blank), true)
  }

  /** The top-level call: empty prefix, drawn as a left step. */
  function Diagram(root: Tree): string {
    PrintTree(root, "", true)
  }

  // ---------------------------------------------------------------------
  // A flat description of the diagram: one line per node, in the order right
  // subtree, node, left subtree, each line fixed by the node's path from the root.

  datatype Dir = L | R

  /** A node of the tree with the path that reaches it. */
  datatype Entry = Entry(path: seq<Dir>, value: string)

  /** The nodes of `t` in reverse in-order, each with its path, below `path`. */
  function Entries(t: Tree, path: seq<Dir>): (r: seq<Entry>)
    ensures |r| == Size(t)
    decreases t
  {
    match t
    case Nil => []
    case Node(v, l, r) => Entries(r, path + [R]) + [Entry(path, v)] + Entries(l, path + [L])
  }

  /** The `isLeft` flag a node is printed with: the top-level flag at the
      root, otherwise whether the last step to it was to a left child. */
  function IsLeftAt(isLeft: bool, path: seq<Dir>): bool {
    if path == [] then isLeft else path[|path| - 1] == L
  }

  /** The fragment added to the prefix when a node printed with flag `isLeft`
      descends in direction `d`. */
  function Fragment(isLeft: bool, d: Dir): string {
    if isLeft == (d == R) then Blank else Bar
  }

  /** What the walk from the root along `path` adds to the prefix. */
  function Indent(isLeft: bool, path: seq<Dir>): string
    decreases |path|
  {
    if path == [] then ""
    else
      var up := path[..|path| - 1];
      Indent(isLeft, up) + Fragment(IsLeftAt(isLeft, up), path[|path| - 1])
  }

  /** The line of an entry: the initial prefix plus the entry's indent,
      the glyph of its flag, its value and a newline. */
  function Line(prefix: string, isLeft: bool, e: Entry): string {
    NodeLine(prefix + Indent(isLeft, e.path), IsLeftAt(isLeft, e.path), e.value)
  }

  function Lines(prefix: string, isLeft: bool, es: seq<Entry>): string {
    if es == [] then "" else Line(prefix, isLeft, es[0]) + Lines(prefix, isLeft, es[1..])
  }

  /** The values of `t` in order: left subtree, node, right subtree. */
  function InOrder(t: Tree): seq<string> {
    match t
    case Nil => []
    case Node(v, l, r) => InOrder(l) + [v] + InOrder(r)
  }

  function Values(es: seq<Entry>): seq<string> {
    if es == [] then [] else [es[0].value] + Values(es[1..])
  }


  function CountNewlines(s: string): nat {
    if s == [] then 0 else (if s[0] == '\n' then 1 else 0) + CountNewlines(s[1..])
  }

  /** No node value contains a newline. */
  predicate NoNewlineValues(t: Tree) {
    match t
    case Nil => true
    case Node(v, l, r) => '\n' !in v && NoNewlineValues(l) && NoNewlineValues(r)
  }

  // ---------------------------------------------------------------------
  // Lemmas

  lemma {:induction false} LinesAppend(prefix: string, isLeft: bool, a: seq<Entry>, b: seq<Entry>)
    ensures Lines(prefix, isLeft, a + b) == Lines(prefix, isLeft, a) + Lines(prefix, isLeft, b)
    decreases |a|
  {
    if a == [] {
      assert a + b == b;
    } else {
      assert (a + b)[1..] == a[1..] + b;
      LinesAppend(prefix, isLeft, a[1..], b);
    }
  }

  lemma IndentSnoc(isLeft: bool, path: seq<Dir>, d: Dir)
    ensures Indent(isLeft, path + [d]) == Indent(isLeft, path) + Fragment(IsLeftAt(isLeft, path), d)
    ensures IsLeftAt(isLeft, path + [d]) == (d == L)
  {
    assert (path + [d])[..|path + [d]| - 1] == path;
  }

  lemma LinesSplit(prefix: string, isLeft: bool, a: seq<Entry>, e: Entry, b: seq<Entry>)
    ensures Lines(prefix, isLeft, a + [e] + b)
         == Lines(prefix, isLeft, a) + Line(prefix, isLeft, e) + Lines(prefix, isLeft, b)
  {
    var la, lb, le := Lines(prefix, isLeft, a), Lines(prefix, isLeft, b), Line(prefix, isLeft, e);
    assert [e][1..] == [];
    assert Lines(prefix, isLeft, [e]) == le + "";
    assert le + "" == le;
    LinesAppend(prefix, isLeft, a, [e]);
    assert Lines(prefix, isLeft, a + [e]) == la + le;
    LinesAppend(prefix, isLeft, a + [e], b);
    assert Lines(prefix, isLeft, a + [e] + b) == (la + le) + lb;
  }

  lemma Assoc(a: string, b: string, c: string)
    ensures a + (b + c) == (a + b) + c
  {
  }

  lemma {:induction false} PrintTreeAt(t: Tree, prefix: string, isLeft: bool, path: seq<Dir>)
    ensures PrintTree(t, prefix + Indent(isLeft, path), IsLeftAt(isLeft, path))
         == Lines(prefix, isLeft, Entries(t, path))
    decreases t
  {
    match t
    case Nil =>
    case Node(v, l, r) =>
      var flag := IsLeftAt(isLeft, path);
      var p := prefix + Indent(isLeft, path);
      var pr, pl := p + Fragment(flag, R), p + Fragment(flag, L);
      IndentSnoc(isLeft, path, R);
      IndentSnoc(isLeft, path, L);
      Assoc(prefix, Indent(isLeft, path), Fragment(flag, R));
      Assoc(prefix, Indent(isLeft, path), Fragment(flag, L));
      PrintTreeAt(r, prefix, isLeft, path + [R]);
      PrintTreeAt(l, prefix, isLeft, path + [L]);
      var er, el := Entries(r, path + [R]), Entries(l, path + [L]);
      assert PrintTree(r, pr, false) == Lines(prefix, isLeft, er);
      assert PrintTree(l, pl, true) == Lines(prefix, isLeft, el);
      assert Line(prefix, isLeft, Entry(path, v)) == NodeLine(p, flag, v);
      assert Entries(t, path) == er + [Entry(path, v)] + el;
      LinesSplit(prefix, isLeft, er, Entry(path, v), el);
      assert PrintTree(t, p, flag) == PrintTree(r, pr, false) + NodeLine(p, flag, v) + PrintTree(l, pl, true);
  }

  /** The diagram is one line per node, right subtree first, then the node,
      then the left subtree.  The line of the node reached by `path` is the
      initial prefix, then 8 characters per step (`Indent`), then the
      backslash glyph if the last step was to a right child (the slash glyph
      for left children and for the root of a top-level call), then the value. */
  lemma PrintTreeLines(t: Tree, prefix: string, isLeft: bool)
    ensures PrintTree(t, prefix, isLeft) == Lines(prefix, isLeft, Entries(t, []))
  {
    PrintTreeAt(t, prefix, isLeft, []);
    assert prefix + "" == prefix;
  }

  /** A node at depth d is indented by 8 * d characters beyond the prefix. */
  lemma {:induction false} IndentLength(isLeft: bool, path: seq<Dir>)
    ensures |Indent(isLeft, path)| == 8 * |path|
    decreases |path|
  {
    if path != [] {
      IndentLength(isLeft, path[..|path| - 1]);
    }
  }

  /** The glyph of a line tells the direction of the last step. */
  lemma GlyphOfStep(isLeft: bool, path: seq<Dir>)
    requires path != []
    ensures Glyph(IsLeftAt(isLeft, path)) == BackslashGlyph <==> path[|path| - 1] == R
  {
  }

  lemma {:induction false} ValuesAppend(a: seq<Entry>, b: seq<Entry>)
    ensures Values(a + b) == Values(a) + Values(b)
    decreases |a|
  {
    if a == [] {
      assert a + b == b;
    } else {
      assert (a + b)[1..] == a[1..] + b;
      ValuesAppend(a[1..], b);
    }
  }


  /** The lines follow the reverse of the in-order traversal. */
  lemma {:induction false} EntriesReverseInOrder(t: Tree, path: seq<Dir>)
    ensures Values(Entries(t, path)) == Reverse(InOrder(t))
    decreases t
  {
    match t
    case Nil =>
    case Node(v, l, r) =>
      EntriesReverseInOrder(r, path + [R]);
      EntriesReverseInOrder(l, path + [L]);
      var er, el := Entries(r, path + [R]), Entries(l, path + [L]);
      var me := Entry(path, v);
      assert Entries(t, path) == er + [me] + el;
      ValuesAppend(er + [me], el);
      ValuesAppend(er, [me]);
      assert [me][1..] == [];
      assert Values([me]) == [v];
      assert Values(Entries(t, path)) == (Values(er) + [v]) + Values(el);
      ReverseAppend(InOrder(l) + [v], InOrder(r));
      ReverseAppend(InOrder(l), [v]);
      assert Reverse([v]) == [v];
      assert InOrder(t) == (InOrder(l) + [v]) + InOrder(r);
      assert Reverse(InOrder(t)) == Reverse(InOrder(r)) + ([v] + Reverse(InOrder(l)));
  }

  lemma {:induction false} CountNewlinesAppend(a: string, b: string)
    ensures CountNewlines(a + b) == CountNewlines(a) + CountNewlines(b)
    decreases |a|
  {
    if a == [] {
      assert a + b == b;
    } else {
      assert (a + b)[1..] == a[1..] + b;
      CountNewlinesAppend(a[1..], b);
    }
  }

  lemma {:induction false} CountNewlinesNone(s: string)
    requires '\n' !in s
    ensures CountNewlines(s) == 0
    decreases |s|
  {
    if s != [] {
      assert s[0] in s;
      assert forall c :: c in s[1..] ==> c in s;
      CountNewlinesNone(s[1..]);
    }
  }

  lemma NodeLineCount(prefix: string, isLeft: bool, v: string)
    requires '\n' !in prefix && '\n' !in v
    ensures CountNewlines(NodeLine(prefix, isLeft, v)) == 1
  {
    var text := prefix + Glyph(isLeft) + v;
    assert '\n' !in Glyph(isLeft);
    CountNewlinesAppend(text, "\n");
    CountNewlinesNone(text);
  }

  /** When no value (and not the prefix) contains a newline, the diagram has
      exactly one line per node. */
  lemma {:induction false} PrintTreeLineCount(t: Tree, prefix: string, isLeft: bool)
    requires NoNewlineValues(t) && '\n' !in prefix
    ensures CountNewlines(PrintTree(t, prefix, isLeft)) == Size(t)
    decreases t
  {
    match t
    case Nil =>
    case Node(v, l, r) =>
      var pr := prefix + (if isLeft then Blank else Bar);
      var pl := prefix + (if isLeft then Bar else Blank);
      assert '\n' !in Blank && '\n' !in Bar;
      PrintTreeLineCount(r, pr, false);
      PrintTreeLineCount(l, pl, true);
      NodeLineCount(prefix, isLeft, v);
      var a, m, b := PrintTree(r, pr, false), NodeLine(prefix, isLeft, v), PrintTree(l, pl, true);
      CountNewlinesAppend(a + m, b);
      CountNewlinesAppend(a, m);
  }

  /** The base cases of the printer. */
  lemma PrintTreeBase(v: string)
    ensures Diagram(Nil) == ""
    ensures Diagram(Leaf(v)) == " /--- " + v + "\n"
  {
  }
}
