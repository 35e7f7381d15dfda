/**
  The calculation step of the calculator: tokenize the input for the lexer
  table, and, when the expression evaluates, build the tree and print it;
  when evaluation fails, the diagram is cleared.  The evaluator is external,
  so its outcome is a parameter.
 */
module Calculadora {
  import opened Tokenizer
  import opened Trees
  import opened TreeBuilder
  import opened TreePrinter

  /** The outcome of the external expression evaluator. */
  datatype Evaluation = Evaluated(result: string) | Failed

  /** The diagram the pipeline draws for `input`. */
  function DiagramOf(input: string): string {
    Diagram(Build(Tokenize(input)))
  }

  /** The token table and the tree diagram produced by one calculation. */
  method Calculate(input: string, evaluation: Evaluation) returns (lexResult: seq<Token>, operationTree: string)
    ensures lexResult == Tokenize(input)
    ensures operationTree == if evaluation.Failed? then "" else DiagramOf(input)
  {
    var tokens := Tokenize(input);
    lexResult := tokens;
    match evaluation
    case Failed =>
      operationTree := "";
    case Evaluated(_) =>
      var treeRoot := BuildTree(tokens);
      operationTree := PrintTree(treeRoot.ToTree(), "", true);
  }

  /** The scanner's matches on "1+2*3", one step per position. */
  lemma MatchesOnePlusTwoTimesThree()
    ensures Matches("1+2*3") == [Match(0, "1"), Match(1, "+"), Match(2, "2"), Match(3, "*"), Match(4, "3")]
  {
    var s := "1+2*3";
    assert DigitRunEnd(s, 4) == 5 && s[4..5] == "3" && MatchesFrom(s, 5) == [];
    assert MatchesFrom(s, 4) == [Match(4, "3")];
    assert s[3..4] == "*" && IsSymbol(s[3]) && !IsDigit(s[3]);
    assert MatchesFrom(s, 3) == [Match(3, "*"), Match(4, "3")];
    assert DigitRunEnd(s, 2) == 3 && s[2..3] == "2";
    assert MatchesFrom(s, 2) == [Match(2, "2"), Match(3, "*"), Match(4, "3")];
    assert s[1..2] == "+" && IsSymbol(s[1]) && !IsDigit(s[1]);
    assert MatchesFrom(s, 1) == [Match(1, "+"), Match(2, "2"), Match(3, "*"), Match(4, "3")];
    assert DigitRunEnd(s, 0) == 1 && s[0..1] == "1";
  }

  /** "1+2*3" gives number, operator, number, operator, number. */
  lemma TokenizeOnePlusTwoTimesThree()
    ensures Tokenize("1+2*3") ==
      [Token(Numero, "1"), Token(Operador, "+"), Token(Numero, "2"), Token(Operador, "*"), Token(Numero, "3")]
  {
    MatchesOnePlusTwoTimesThree();
    var ms := Matches("1+2*3");
    var ts := [Token(Numero, "1"), Token(Operador, "+"), Token(Numero, "2"), Token(Operador, "*"), Token(Numero, "3")];
    assert Classify("1") == Numero && Classify("2") == Numero && Classify("3") == Numero;
    assert Classify("+") == Operador && Classify("*") == Operador;
    forall k | 0 <= k < |ts|
      ensures ts[k] == Token(Classify(ms[k].text), ms[k].text)
    {
      if k == 0 {} else if k == 1 {} else if k == 2 {} else if k == 3 {} else {}
    }
    TokenizeOfMatches("1+2*3", ts);
  }

  /** "1+2*3" gives root "*" over the "+" subtree of "1+2", with right leaf "3". */
  lemma BuildOnePlusTwoTimesThree()
    ensures Build(Tokenize("1+2*3")) == Node("*", Node("+", Leaf("1"), Leaf("2")), Leaf("3"))
  {
    TokenizeOnePlusTwoTimesThree();
    var ts := Tokenize("1+2*3");
    var rest := ts[1..];
    var start := Leaf("1");
    assert rest[..1][..0] == [];
    assert Fold(start, rest[..1]) == Node("+", start, Nil);
    assert rest[..2][..1] == rest[..1];
    assert Fold(start, rest[..2]) == Node("+", start, Leaf("2"));
    assert rest[..3][..2] == rest[..2];
    assert Fold(start, rest[..3]) == Node("*", Node("+", start, Leaf("2")), Nil);
    assert rest[..4][..3] == rest[..3] && rest[..4] == rest;
  }

  lemma BuildOnePlusTwo()
    ensures Build(Tokenize("1+2")) == Node("+", Leaf("1"), Leaf("2"))
  {
    var s := "1+2";
    assert DigitRunEnd(s, 2) == 3 && s[2..3] == "2" && MatchesFrom(s, 3) == [];
    assert s[1..2] == "+" && IsSymbol(s[1]) && !IsDigit(s[1]);
    assert MatchesFrom(s, 1) == [Match(1, "+"), Match(2, "2")];
    assert DigitRunEnd(s, 0) == 1 && s[0..1] == "1";
    assert Matches(s) == [Match(0, "1"), Match(1, "+"), Match(2, "2")];
    var ts := Tokenize(s);
    assert ts == [Token(Numero, "1"), Token(Operador, "+"), Token(Numero, "2")];
    var rest := ts[1..];
    var start := Leaf("1");
    assert rest[..1][..0] == [];
    assert Fold(start, rest[..1]) == Node("+", start, Nil);
    assert rest[..2][..1] == rest[..1] && rest[..2] == rest;
  }

  /** The diagram of a root with two leaves: the right leaf above (under a
      blank fragment, backslash glyph), the root, the left leaf below (under a
      bar fragment, slash glyph). */
  lemma PrintOnePlusTwo()
    ensures Diagram(Node("+", Leaf("1"), Leaf("2")))
         == NodeLine(Blank, false, "2") + NodeLine("", true, "+") + NodeLine(Bar, true, "1")
  {
    var t := Node("+", Leaf("1"), Leaf("2"));
    assert "" + Blank == Blank && "" + Bar == Bar;
    assert PrintTree(Leaf("2"), Blank, false) == NodeLine(Blank, false, "2");
    assert PrintTree(Leaf("1"), Bar, true) == NodeLine(Bar, true, "1");
    assert Diagram(t) == PrintTree(Leaf("2"), "" + Blank, false) + NodeLine("", true, "+")
                         + PrintTree(Leaf("1"), "" + Bar, true);
  }

  /** The diagram of "1+2". */
  lemma DiagramOnePlusTwo()
    ensures DiagramOf("1+2")
         == NodeLine(Blank, false, "2") + NodeLine("", true, "+") + NodeLine(Bar, true, "1")
  {
    BuildOnePlusTwo();
    PrintOnePlusTwo();
  }
}
