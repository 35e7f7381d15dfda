/**
  The tree builder.  The first token becomes the initial node, whatever its
  kind; then, left to right, every later operator takes the structure built so
  far as its left child and becomes the current node, and every later number
  replaces the current node's right child by a new leaf.  Parentheses and
  unknown tokens after the first are ignored.  The result is the final current
  node.

  `Build` is the same process as a fold over tree values; `BuildTree` is the
  pointer-updating loop over heap nodes, proved to produce `Build`'s tree.
 */
module TreeBuilder {
  import opened Tokenizer
  import opened Trees
  import opened Sequences

  /** The value of the initial node: the first token's text, or "" if there is none. */
  function First(tokens: seq<Token>): string {
    if |tokens| > 0 then tokens[0].value else ""
  }

  /** The tokens after the first (`slice(1)`). */
  function Rest(tokens: seq<Token>): seq<Token> {
    if |tokens| > 0 then tokens[1..] else []
  }

  /** One iteration of the loop, on the current node's tree. */
  function Step(current: Tree, token: Token): (r: Tree)
    requires current.Node?
    ensures r.Node?
  {
    match token.kind
    case Operador => Node(token.value, current, Nil)
    case Numero => current.(right := Leaf(token.value))
    case _ => current
  }

  /** The loop over `tokens`, from the initial tree `start`. */
  function Fold(start: Tree, tokens: seq<Token>): (r: Tree)
    requires start.Node?
    ensures r.Node?
    decreases |tokens|
  {
    if tokens == [] then start
    else Step(Fold(start, tokens[..|tokens| - 1]), tokens[|tokens| - 1])
  }

  /** The tree the builder returns for `tokens`. */
  function Build(tokens: seq<Token>): (r: Tree)
    ensures r.Node?
  {
    Fold(Leaf(First(tokens)), Rest(tokens))
  }

  /** The builder on heap nodes: `current` walks up as operators arrive, and
      numbers overwrite `current.right`. */
  method BuildTree(tokens: seq<Token>) returns (current: TreeNode)
    ensures current.Valid() && fresh(current.Repr)
    ensures current.ToTree() == Build(tokens)
  {
    var root := new TreeNode(First(tokens));
    current := root;
    var rest := Rest(tokens);
    var i := 0;
    while i < |rest|
      invariant 0 <= i <= |rest|
      invariant current.Valid() && fresh(current.Repr)
      invariant current.ToTree() == Fold(Leaf(First(tokens)), rest[..i])
    {
      var token := rest[i];
      ghost var before := current.ToTree();
      if token.kind == Operador {
        var node := new TreeNode(token.value);
        node.SetLeft(current);
        current := node;
      } else if token.kind == Numero {
        current.ReplaceRight(token.value);
      }
      assert current.ToTree() == Step(before, token);
      assert rest[..i + 1][..i] == rest[..i];
      i := i + 1;
    }
    assert rest[..i] == rest;
  }

  // ---------------------------------------------------------------------
  // Reference descriptions of the tree the builder returns

  /** The texts of the operator tokens, in order. */
  function Ops(tokens: seq<Token>): seq<string> {
    if tokens == [] then []
    else (if tokens[0].kind == Operador then [tokens[0].value] else []) + Ops(tokens[1..])
  }

  /** `tokens` cut at every operator: the tokens before the first operator,
      then the tokens after each operator up to the next one. */
  function Segments(tokens: seq<Token>): (r: seq<seq<Token>>)
    ensures |r| > 0
  {
    if tokens == [] then [[]]
    else
      var tail := Segments(tokens[1..]);
      if tokens[0].kind == Operador then [[]] + tail
      else [[tokens[0]] + tail[0]] + tail[1..]
  }

  /** A leaf for the last number in `tokens`, or `Nil` if there is none. */
  function LastNumber(tokens: seq<Token>): Tree {
    if tokens == [] then Nil
    else if tokens[|tokens| - 1].kind == Numero then Leaf(tokens[|tokens| - 1].value)
    else LastNumber(tokens[..|tokens| - 1])
  }

  function LastNumbers(segments: seq<seq<Token>>): seq<Tree> {
    if segments == [] then [] else [LastNumber(segments[0])] + LastNumbers(segments[1..])
  }


  /** The values met following `left` from the root. */
  function Spine(t: Tree): seq<string> {
    match t
    case Nil => []
    case Node(v, l, _) => [v] + Spine(l)
  }

  /** The right children of the nodes met following `left` from the root. */
  function RightChildren(t: Tree): seq<Tree> {
    match t
    case Nil => []
    case Node(_, l, r) => [r] + RightChildren(l)
  }

  /** Every node off the left spine is a leaf hanging as a right child. */
  predicate RightsAreLeaves(t: Tree) {
    match t
    case Nil => true
    case Node(_, l, r) => (r == Nil || r == Leaf(r.value)) && RightsAreLeaves(l)
  }

  // ---------------------------------------------------------------------
  // Lemmas on sequences


  lemma {:induction false} OpsSnoc(tokens: seq<Token>, x: Token)
    ensures Ops(tokens + [x]) == Ops(tokens) + (if x.kind == Operador then [x.value] else [])
    decreases |tokens|
  {
    var e := if x.kind == Operador then [x.value] else [];
    if tokens == [] {
      assert [x][1..] == [];
      assert Ops([x]) == e + Ops([]);
      assert tokens + [x] == [x];
    } else {
      var h := if tokens[0].kind == Operador then [tokens[0].value] else [];
      var tail := tokens[1..];
      assert (tokens + [x])[0] == tokens[0];
      assert (tokens + [x])[1..] == tail + [x];
      assert Ops(tokens + [x]) == h + Ops(tail + [x]);
      OpsSnoc(tail, x);
      assert Ops(tokens) == h + Ops(tail);
      assert h + (Ops(tail) + e) == (h + Ops(tail)) + e;
    }
  }

  /** `segments` with `x` appended to its last segment. */
  function AppendToLast(segments: seq<seq<Token>>, x: Token): seq<seq<Token>>
    requires segments != []
  {
    segments[..|segments| - 1] + [segments[|segments| - 1] + [x]]
  }

  /** Prepending `t` to the first segment commutes with `AppendToLast` and
      with adding an empty last segment. */
  lemma ExtendFirst(t: Token, s: seq<seq<Token>>, x: Token)
    requires s != []
    ensures var s' := AppendToLast(s, x);
      [[t] + s'[0]] + s'[1..] == AppendToLast([[t] + s[0]] + s[1..], x)
    ensures [[t] + (s + [[]])[0]] + (s + [[]])[1..] == ([[t] + s[0]] + s[1..]) + [[]]
  {
    var n := |s|;
    var s' := AppendToLast(s, x);
    var u := [[t] + s[0]] + s[1..];
    if n == 1 {
      assert s' == [s[0] + [x]];
      assert [t] + (s[0] + [x]) == ([t] + s[0]) + [x];
    } else {
      assert s'[0] == s[0];
      assert s'[1..] == s[1..n - 1] + [s[n - 1] + [x]];
      assert u[..n - 1] == [[t] + s[0]] + s[1..n - 1];
    }
    assert (s + [[]])[1..] == s[1..] + [[]];
  }

  lemma {:induction false} SegmentsSnoc(tokens: seq<Token>, x: Token)
    ensures Segments(tokens + [x]) ==
      if x.kind == Operador then Segments(tokens) + [[]] else AppendToLast(Segments(tokens), x)
    decreases |tokens|
  {
    if tokens == [] {
      var empty: seq<seq<Token>> := [[]];
      assert [x][1..] == [] && Segments([]) == empty;
      assert empty[..0] == [] && empty[0] + [x] == [x];
      assert AppendToLast(empty, x) == [[x]];
      if x.kind == Operador {
        assert Segments([x]) == [[]] + empty;
      } else {
        assert [x] + [] == [x] && empty[1..] == [];
        assert Segments([x]) == [[x] + []] + empty[1..];
      }
    } else {
      var t, r := tokens[0], tokens[1..];
      assert (tokens + [x])[1..] == r + [x];
      SegmentsSnoc(r, x);
      var s := Segments(r);
      if t.kind == Operador {
        assert [[]] + (s + [[]]) == ([[]] + s) + [[]];
        assert AppendToLast([[]] + s, x) == [[]] + AppendToLast(s, x);
      } else {
        ExtendFirst(t, s, x);
      }
    }
  }

  lemma {:induction false} LastNumbersAppend(a: seq<seq<Token>>, b: seq<seq<Token>>)
    ensures LastNumbers(a + b) == LastNumbers(a) + LastNumbers(b)
    decreases |a|
  {
    if a == [] {
      assert a + b == b;
    } else {
      assert (a + b)[1..] == a[1..] + b;
      LastNumbersAppend(a[1..], b);
    }
  }

  // ---------------------------------------------------------------------
  // Lemmas on the builder

  lemma {:induction false} FoldAppend(start: Tree, a: seq<Token>, b: seq<Token>)
    requires start.Node?
    ensures Fold(start, a + b) == Fold(Fold(start, a), b)
    decreases |b|
  {
    if b == [] {
      assert a + b == a;
    } else {
      assert (a + b)[..|a + b| - 1] == a + b[..|b| - 1];
      FoldAppend(start, a, b[..|b| - 1]);
    }
  }

  lemma {:induction false} FoldSpine(v: string, tokens: seq<Token>)
    ensures Spine(Fold(Leaf(v), tokens)) == Reverse(Ops(tokens)) + [v]
    decreases |tokens|
  {
    if tokens != [] {
      var init, x := tokens[..|tokens| - 1], tokens[|tokens| - 1];
      assert tokens == init + [x];
      FoldSpine(v, init);
      OpsSnoc(init, x);
      if x.kind == Operador {
        ReverseAppend(Ops(init), [x.value]);
      } else {
        assert Ops(init) + [] == Ops(init);
      }
    }
  }

  lemma StepRightChildren(current: Tree, x: Token)
    requires current.Node?
    ensures RightChildren(Step(current, x)) ==
      match x.kind
      case Operador => [Nil] + RightChildren(current)
      case Numero => [Leaf(x.value)] + RightChildren(current)[1..]
      case _ => RightChildren(current)
    ensures RightsAreLeaves(current) ==> RightsAreLeaves(Step(current, x))
  {
  }

  lemma LastNumberSnoc(segment: seq<Token>, x: Token)
    ensures LastNumber(segment + [x]) == if x.kind == Numero then Leaf(x.value) else LastNumber(segment)
  {
    assert (segment + [x])[..|segment + [x]| - 1] == segment;
  }

  lemma ReverseLastNumbersSnoc(init: seq<seq<Token>>, last: seq<Token>)
    ensures Reverse(LastNumbers(init + [last])) == [LastNumber(last)] + Reverse(LastNumbers(init))
  {
    assert LastNumbers([last]) == [LastNumber(last)];
    assert Reverse([LastNumber(last)]) == [LastNumber(last)];
    LastNumbersAppend(init, [last]);
    ReverseAppend(LastNumbers(init), [LastNumber(last)]);
  }

  lemma {:induction false} FoldRightChildren(v: string, tokens: seq<Token>)
    ensures RightsAreLeaves(Fold(Leaf(v), tokens))
    ensures RightChildren(Fold(Leaf(v), tokens)) == Reverse(LastNumbers(Segments(tokens)))
    decreases |tokens|
  {
    if tokens == [] {
      assert Reverse(LastNumbers([[]])) == [Nil] by {
        ReverseLastNumbersSnoc([], []);
      }
    } else {
      var init, x := tokens[..|tokens| - 1], tokens[|tokens| - 1];
      assert tokens == init + [x];
      var current := Fold(Leaf(v), init);
      assert Fold(Leaf(v), tokens) == Step(current, x);
      FoldRightChildren(v, init);
      StepRightChildren(current, x);
      SegmentsSnoc(init, x);
      var s := Segments(init);
      var n := |s|;
      var rc := Reverse(LastNumbers(s));
      if x.kind == Operador {
        assert Segments(tokens) == s + [[]];
        ReverseLastNumbersSnoc(s, []);
        assert Reverse(LastNumbers(s + [[]])) == [Nil] + rc;
      } else {
        assert s == s[..n - 1] + [s[n - 1]];
        assert Segments(tokens) == s[..n - 1] + [s[n - 1] + [x]];
        ReverseLastNumbersSnoc(s[..n - 1], s[n - 1]);
        ReverseLastNumbersSnoc(s[..n - 1], s[n - 1] + [x]);
        LastNumberSnoc(s[n - 1], x);
        var below := Reverse(LastNumbers(s[..n - 1]));
        assert rc == [LastNumber(s[n - 1])] + below;
        assert rc[1..] == below;
      }
    }
  }

  /** An empty token sequence gives a single node holding "" with no children. */
  lemma BuildEmpty()
    ensures Build([]) == Node("", Nil, Nil)
  {
  }

  /** The left spine: following `left` from the root lists the operators after
      the first token, latest first, and ends at the node for the first token,
      whatever its kind.  So the root holds the last operator, or the first
      token if no operator follows it. */
  lemma BuildLeftSpine(tokens: seq<Token>)
    requires tokens != []
    ensures Spine(Build(tokens)) == Reverse(Ops(tokens[1..])) + [tokens[0].value]
    ensures Build(tokens).value ==
      if Ops(tokens[1..]) == [] then tokens[0].value else Ops(tokens[1..])[|Ops(tokens[1..])| - 1]
  {
    var ops := Ops(tokens[1..]);
    FoldSpine(tokens[0].value, tokens[1..]);
    assert Spine(Build(tokens))[0] == Build(tokens).value;
    if ops != [] {
      assert ops == ops[..|ops| - 1] + [ops[|ops| - 1]];
      ReverseAppend(ops[..|ops| - 1], [ops[|ops| - 1]]);
      assert Reverse([ops[|ops| - 1]]) == [ops[|ops| - 1]];
    }
  }

  /** The right children: every node off the left spine is a leaf, and the
      right child of each spine node is a leaf for the last number between it
      and the next operator (later numbers overwrite earlier ones), or absent
      if there is none. */
  lemma BuildRightChildren(tokens: seq<Token>)
    ensures RightsAreLeaves(Build(tokens))
    ensures RightChildren(Build(tokens)) == Reverse(LastNumbers(Segments(Rest(tokens))))
  {
    FoldRightChildren(First(tokens), Rest(tokens));
  }

  /** A parenthesis or unknown token after the first has no effect on the tree. */
  lemma BuildIgnores(a: seq<Token>, x: Token, b: seq<Token>)
    requires a != []
    requires x.kind == Parentesis || x.kind == Desconocido
    ensures Build(a + [x] + b) == Build(a + b)
  {
    var start := Leaf(a[0].value);
    assert Rest(a + [x] + b) == (a[1..] + [x]) + b;
    assert Rest(a + b) == a[1..] + b;
    FoldAppend(start, a[1..] + [x], b);
    FoldAppend(start, a[1..], b);
    assert (a[1..] + [x])[..|a[1..] + [x]| - 1] == a[1..];
  }

  /** Of two numbers in a row after the first token, only the later one counts. */
  lemma BuildLaterNumberWins(a: seq<Token>, x: Token, y: Token, b: seq<Token>)
    requires a != []
    requires x.kind == Numero && y.kind == Numero
    ensures Build(a + [x, y] + b) == Build(a + [y] + b)
  {
    var start := Leaf(a[0].value);
    assert Rest(a + [x, y] + b) == (a[1..] + [x, y]) + b;
    assert Rest(a + [y] + b) == (a[1..] + [y]) + b;
    FoldAppend(start, a[1..] + [x, y], b);
    FoldAppend(start, a[1..] + [y], b);
    assert (a[1..] + [x, y])[..|a[1..] + [x, y]| - 1] == a[1..] + [x];
    assert (a[1..] + [x])[..|a[1..] + [x]| - 1] == a[1..];
    assert (a[1..] + [y])[..|a[1..] + [y]| - 1] == a[1..];
  }
}
