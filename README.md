# Calculadora: lexer, expression tree and tree diagram

A model of the text-processing core of a small calculator page
(`src/page/calculadora.jsx`). The core has three parts:

- **The lexer** (`tokenize`). It scans the input with a global regular
  expression. The pattern matches a run of digits or one of `+ - * / ( ) .`.
  Each matched substring is classified as a number, an operator, a
  parenthesis or unknown.
- **The tree builder** (`buildTree`). It turns the token list into a binary tree
  of heap `TreeNode`s:
  - the first token becomes the current node;
  - every later operator takes the current node as its left child and becomes
    the current node;
  - every later number replaces the current node's right child with a new leaf.
- **The printer** (`printTree`). It draws the tree sideways as text: the right
  subtree above, the node's own line, then the left subtree below.

`calculate` ties these together. It always tokenizes. If the external evaluator
succeeds, it builds and prints the tree. If the evaluator fails, it clears the
diagram.

Modules:

- `Tokenizer` (tokenizer.dfy):
  - the scanner `MatchesFrom`/`Matches`, which walks positions the way the
    global match advances its `lastIndex`;
  - `Classify` and `Tokenize`;
  - reference definitions (`KeepPattern`, `Concat`) and the lexer's properties.
- `Trees` (trees.dfy):
  - the tree value `Tree` (`Nil` stands for `null`);
  - the heap class `TreeNode`, with a `Repr` footprint and a `Valid()`
    invariant (finite, unshared, acyclic);
  - `ToTree()`, which reads a heap node as a `Tree` value;
  - `ReplaceRight` and `SetLeft`, the two field assignments the builder makes.
- `TreeBuilder` (builder.dfy):
  - `BuildTree`, the imperative loop over heap nodes;
  - `Build`/`Fold`, the same process on tree values, which specifies the loop;
  - reference descriptions of the resulting shape (`Spine`, `RightChildren`,
    `Ops`, `Segments`, `LastNumbers`).
- `TreePrinter` (printer.dfy):
  - `PrintTree` and `Diagram`;
  - a flat reference description: `Entries` lists every node with its path from
    the root, and `Lines`/`Line`/`Indent` give the line each node gets.
- `Sequences` (sequences.dfy): `Reverse` and its append lemma.
- `Calculadora` (calculadora.dfy): `Calculate`, plus worked examples.

Details the code settles:

- The first token becomes the root whatever its kind.
  - A leading parenthesis or `.` is kept as the root value.
  - A number or operator in first position is not treated as such: an operator
    does not get a left child, and a number does not become a right child.
- The tree is built only when evaluation succeeds, because the code calls the
  builder inside the same `try` as the evaluator.

## Model

| member | source | states |
|---|---|---|
| Tokenizer.DigitRunEnd | src/page/calculadora.jsx:19 | The `\d+` alternative is greedy: every character from the start to the returned end is a digit, and the character at the end is not a digit, or the input has ended. |
| Tokenizer.MatchesFrom | src/page/calculadora.jsx:19 | The global scan from a position returns matches that start at or after it, end inside the input, and are each a digit run or a single pattern symbol. |
| Tokenizer.Classify | src/page/calculadora.jsx:21-29 | On every text the pattern can match, the class is exactly one of four. It is Número iff the text is a digit run (the numeric test), Operador iff it is one of `+ - * /`, Paréntesis iff it is `(` or `)`, Desconocido iff it is `.`. |
| Tokenizer.Tokenize | src/page/calculadora.jsx:18-31 | Every token's kind agrees with its text, as in the classification table. |
| Tokenizer.TokenizeKeepsPatternChars | src/page/calculadora.jsx:19-30 | The token texts, concatenated in order, are exactly the input with every character outside the pattern removed. Nothing is lost, duplicated or reordered. |
| Tokenizer.TokenizeEmptyIff | src/page/calculadora.jsx:19-30 | The token list is empty (when `match` returns null) iff no input character can start a match. |
| Tokenizer.TokensAreOrderedMatches | src/page/calculadora.jsx:19-30 | There is one token per match, and its text is the input at the match's position. The matches do not overlap and go left to right. A number token is a maximal digit run. |
| Tokenizer.TokenizeDecimal | src/page/calculadora.jsx:19-29 | "3.14" gives a number, an unknown ".", and a number. |
| Tokenizer.TokenizeSum | src/page/calculadora.jsx:19-29 | "12+3" gives number "12", operator "+", number "3". |
| Tokenizer.TokenizeNothing | src/page/calculadora.jsx:20-30 | The empty input gives no tokens. |
| Trees.TreeNode.constructor | src/page/calculadora.jsx:4-10 | A new node holds the value, has no children, and is a valid one-node tree. |
| Trees.TreeNode.ReplaceRight | src/page/calculadora.jsx:70 | Assigning a new leaf to `right` keeps the node valid. The value and the left subtree are unchanged. The right subtree becomes exactly that leaf. |
| Trees.TreeNode.SetLeft | src/page/calculadora.jsx:66-67 | Linking `current` as the left child of a fresh node gives a valid tree. That tree is the node's value over `current`'s tree, with no right child. |
| Trees.TreeNode.ToTree | src/page/calculadora.jsx:4-10 | The tree value of a heap node has the node's value, and each child is absent exactly when the field is `null`. |
| TreeBuilder.BuildTree | src/page/calculadora.jsx:61-74 | The pointer-updating loop returns a valid, freshly allocated heap tree whose value is `Build(tokens)`. |
| TreeBuilder.BuildEmpty | src/page/calculadora.jsx:62 | With no tokens, the result is a single node holding "" with no children. |
| TreeBuilder.BuildLeftSpine | src/page/calculadora.jsx:62-68 | Following `left` from the root lists the operators after the first token, latest first, and ends at the first token's node. So the root holds the last operator, or the first token if no operator follows it. |
| TreeBuilder.BuildRightChildren | src/page/calculadora.jsx:64-72 | Every right child is a leaf or absent. The right child of each spine node is the last number between its operator and the next one, or absent if there is none. |
| TreeBuilder.BuildIgnores | src/page/calculadora.jsx:64-72 | A parenthesis or unknown token after the first one does not change the tree. |
| TreeBuilder.BuildLaterNumberWins | src/page/calculadora.jsx:69-70 | Of two numbers in a row after the first token, only the later one counts. |
| TreePrinter.PrintTree | src/page/calculadora.jsx:76-85 | The diagram is empty exactly for the absent node. A leaf is one line: prefix, glyph, value, newline. |
| TreePrinter.PrintTreeLines | src/page/calculadora.jsx:76-85 | The diagram is one line per node, in reverse in-order. Each line is the prefix, the node's indent, its glyph and its value. |
| TreePrinter.EntriesReverseInOrder | src/page/calculadora.jsx:81-83 | The lines list the node values in reverse in-order: right subtree, node, left subtree. |
| TreePrinter.IndentLength | src/page/calculadora.jsx:81-83 | A node at depth d is indented 8·d characters past the initial prefix. |
| TreePrinter.GlyphOfStep | src/page/calculadora.jsx:82 | Below the root, a line has the backslash glyph iff the node is a right child. |
| TreePrinter.PrintTreeLineCount | src/page/calculadora.jsx:76-85 | When no value and not the prefix contains a newline, the diagram has exactly as many newlines as the tree has nodes. |
| TreePrinter.PrintTreeBase | src/page/calculadora.jsx:77-82 | The empty tree prints as "". A single node prints as " /--- " followed by its value and a newline. |
| Calculadora.Calculate | src/page/calculadora.jsx:37-52 | The lexer table is always the token list. The diagram is the printed built tree when evaluation succeeds, and "" when it fails. |
| Calculadora.MatchesOnePlusTwoTimesThree | src/page/calculadora.jsx:19 | "1+2*3" matches as "1", "+", "2", "*", "3" at positions 0 to 4. |
| Calculadora.TokenizeOnePlusTwoTimesThree | src/page/calculadora.jsx:18-31 | "1+2*3" gives number, operator, number, operator, number. |
| Calculadora.BuildOnePlusTwoTimesThree | src/page/calculadora.jsx:61-74 | "1+2*3" builds a "*" root over the "+" tree of "1+2", with right leaf "3". No precedence is applied. |
| Calculadora.BuildOnePlusTwo | src/page/calculadora.jsx:61-74 | "1+2" builds a "+" root with left leaf "1" and right leaf "2". |
| Calculadora.PrintOnePlusTwo | src/page/calculadora.jsx:76-85 | A two-leaf tree prints three lines: the right leaf under the blank fragment with the backslash glyph, the root, and the left leaf under the bar fragment with the slash glyph. |
| Calculadora.DiagramOnePlusTwo | src/page/calculadora.jsx:37-52 | The whole pipeline draws those three lines for "1+2". |

## Left out

- The React component state (`useState`), the rendering, and the input field's
  change handler. They are UI, not text processing. `Calculate` returns the two
  values it would store instead.
- The external evaluator (`evaluate` from mathjs). It is a parameter of
  `Calculate`: either a result or a failure.
- `Calculate`: the history entry and the replacement of the input by the result
  or by "Error" are not modelled.
- `handleClick` and `clear` are not modelled. They only append to or reset UI
  state.
- Tokenizer.Classify: the numeric test `!isNaN(token)` is modelled as "is a
  digit run". The two agree on every text the pattern can produce, but not on
  arbitrary strings (" 1", "1e3"), which the scanner never passes in.
- Tokenizer.Classify: `'+-*/'.includes` and `'()'.includes` are modelled as
  membership in lists of one-character strings. Substring tests on multi-character
  or empty texts never arise, because the pattern only yields digit runs and
  single symbols.
- TreePrinter.PrintTree works on the `Tree` value. It does not walk heap nodes.
  `Calculate` passes it `ToTree()` of the heap root, so the two agree.
- The printer's JavaScript default parameters (`prefix = ''`, `isLeft = true`)
  are `Diagram`.
- Idempotence and determinism of `tokenize` are not stated as lemmas, because
  Dafny functions are deterministic by construction.
