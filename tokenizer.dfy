/**
  The calculator's lexical analyser: a left-to-right scan of the input with the
  fixed pattern  \d+ | + | - | * | / | ( | ) | .  (global match), followed by a
  four-way classification of every matched substring.  Characters the pattern
  does not cover are skipped and never produce a token.
 */
module Tokenizer {

  /** The four token kinds shown in the lexer table ("Número", "Operador",
      "Paréntesis", "Desconocido"). */
  datatype Kind = Numero | Operador | Parentesis | Desconocido

  /** A classified token: its kind and the exact substring matched. */
  datatype Token = Token(kind: Kind, value: string)

  /** One match of the scan pattern: where it starts in the input and its text. */
  datatype Match = Match(start: nat, text: string)

  /** First position after a match. */
  function End(m: Match): nat {
    m.start + |m.text|
  }

  /** `\d` of the pattern: an ASCII decimal digit. */
  predicate IsDigit(c: char) {
    '0' <= c <= '9'
  }

  /** The single-character alternatives of the pattern. */
  predicate IsSymbol(c: char) {
    c == '+' || c == '-' || c == '*' || c == '/' || c == '(' || c == ')' || c == '.'
  }

  /** A character that some alternative of the pattern can match. */
  predicate IsPatternChar(c: char) {
    IsDigit(c) || IsSymbol(c)
  }

  /** A non-empty run of digits, the text of an `\d+` match. */
  predicate IsDigitRun(t: string) {
    |t| > 0 && forall k :: 0 <= k < |t| ==> IsDigit(t[k])
  }

  /** The texts the pattern can match: a digit run or one single symbol. */
  predicate IsLexeme(t: string) {
    IsDigitRun(t) || (|t| == 1 && IsSymbol(t[0]))
  }

  /** The greedy `\d+`: the end of the longest digit run starting at `i`. */
  function DigitRunEnd(s: string, i: nat): (j: nat)
    requires i <= |s|
    ensures i <= j <= |s|
    ensures forall k :: i <= k < j ==> IsDigit(s[k])
    ensures j == |s| || !IsDigit(s[j])
    decreases |s| - i
  {
    if i < |s| && IsDigit(s[i]) then DigitRunEnd(s, i + 1) else i
  }

  /** The global scan from position `i`: at each position the alternatives are
      tried in the pattern's order; where none matches, the scan moves on by one
      character. */
  function MatchesFrom(s: string, i: nat): (r: seq<Match>)
    requires i <= |s|
    ensures forall k :: 0 <= k < |r| ==> i <= r[k].start && End(r[k]) <= |s|
    ensures forall k :: 0 <= k < |r| ==> IsLexeme(r[k].text)
    decreases |s| - i
  {
    if i == |s| then []
    else if IsDigit(s[i]) then
      var j := DigitRunEnd(s, i);
      [Match(i, s[i..j])] + MatchesFrom(s, j)
    else if IsSymbol(s[i]) then
      [Match(i, s[i..i + 1])] + MatchesFrom(s, i + 1)
    else
      MatchesFrom(s, i + 1)
  }

  /** All matches of the pattern in `s`, left to right. */
  function Matches(s: string): seq<Match> {
    MatchesFrom(s, 0)
  }

  /** The classification chain applied to each matched substring.  For the
      texts the scanner produces, the numeric-coercion test succeeds exactly on
      digit runs (`+`, `-`, `*`, `/`, `(`, `)` and `.` all coerce to NaN). */
  function Classify(text: string): (r: Kind)
    ensures IsLexeme(text) ==>
      && (r == Numero <==> IsDigitRun(text))
      && (r == Operador <==> text in ["+", "-", "*", "/"])
      && (r == Parentesis <==> text in ["(", ")"])
      && (r == Desconocido <==> text == ".")
  {
    assert |text| == 1 ==> text == [text[0]];
    if IsDigitRun(text) then Numero
    else if text in ["+", "-", "*", "/"] then Operador
    else if text in ["(", ")"] then Parentesis
    else Desconocido
  }

  /** The lexer: one token per match, in input order, classified. */
  function Tokenize(s: string): (r: seq<Token>)
    ensures forall k :: 0 <= k < |r| ==>
      && (r[k].kind == Numero <==> IsDigitRun(r[k].value))
      && (r[k].kind == Operador <==> r[k].value in ["+", "-", "*", "/"])
      && (r[k].kind == Parentesis <==> r[k].value in ["(", ")"])
      && (r[k].kind == Desconocido <==> r[k].value == ".")
  {
    var ms := Matches(s);
    seq(|ms|, k requires 0 <= k < |ms| => Token(Classify(ms[k].text), ms[k].text))
  }

  /** `ts` is the token list of `s` when it classifies `s`'s matches one by one. */
  lemma TokenizeOfMatches(s: string, ts: seq<Token>)
    requires |ts| == |Matches(s)|
    requires forall k :: 0 <= k < |ts| ==> ts[k] == Token(Classify(Matches(s)[k].text), Matches(s)[k].text)
    ensures Tokenize(s) == ts
  {
  }

  // ---------------------------------------------------------------------
  // Reference definitions for the properties of the lexer

  /** The input with every character outside the pattern removed. */
  function KeepPattern(s: string): string {
    if s == [] then []
    else (if IsPatternChar(s[0]) then [s[0]] else []) + KeepPattern(s[1..])
  }

  /** The texts of the tokens, concatenated in order. */
  function Concat(ts: seq<Token>): string {
    if ts == [] then [] else ts[0].value + Concat(ts[1..])
  }

  /** The texts of the matches, concatenated in order. */
  function ConcatMatches(ms: seq<Match>): string {
    if ms == [] then [] else ms[0].text + ConcatMatches(ms[1..])
  }

  // ---------------------------------------------------------------------
  // Lemmas

  lemma {:induction false} KeepPatternAppend(a: string, b: string)
    ensures KeepPattern(a + b) == KeepPattern(a) + KeepPattern(b)
    decreases |a|
  {
    if a == [] {
      assert a + b == b;
    } else {
      var h := if IsPatternChar(a[0]) then [a[0]] else [];
      assert (a + b)[0] == a[0];
      assert (a + b)[1..] == a[1..] + b;
      assert KeepPattern(a + b) == h + KeepPattern(a[1..] + b);
      KeepPatternAppend(a[1..], b);
      assert KeepPattern(a) == h + KeepPattern(a[1..]);
      assert h + (KeepPattern(a[1..]) + KeepPattern(b)) == (h + KeepPattern(a[1..])) + KeepPattern(b);
    }
  }

  lemma {:induction false} KeepPatternOfDigits(s: string, i: nat, j: nat)
    requires i <= j <= |s|
    requires forall k :: i <= k < j ==> IsDigit(s[k])
    ensures KeepPattern(s[i..j]) == s[i..j]
    decreases j - i
  {
    if i < j {
      assert s[i..j][1..] == s[i + 1..j];
      KeepPatternOfDigits(s, i + 1, j);
    }
  }

  lemma ConcatMatchesCons(m: Match, rest: seq<Match>)
    ensures ConcatMatches([m] + rest) == m.text + ConcatMatches(rest)
  {
    assert ([m] + rest)[1..] == rest;
  }

  lemma KeepPatternCons(s: string, i: nat)
    requires i < |s|
    ensures KeepPattern(s[i..]) == (if IsPatternChar(s[i]) then [s[i]] else []) + KeepPattern(s[i + 1..])
  {
    assert s[i..][0] == s[i];
    assert s[i..][1..] == s[i + 1..];
  }

  lemma {:induction false} ConcatMatchesFrom(s: string, i: nat)
    requires i <= |s|
    ensures ConcatMatches(MatchesFrom(s, i)) == KeepPattern(s[i..])
    decreases |s| - i
  {
    if i == |s| {
      assert s[i..] == [];
    } else if IsDigit(s[i]) {
      var j := DigitRunEnd(s, i);
      var rest := MatchesFrom(s, j);
      assert MatchesFrom(s, i) == [Match(i, s[i..j])] + rest;
      ConcatMatchesCons(Match(i, s[i..j]), rest);
      ConcatMatchesFrom(s, j);
      assert s[i..] == s[i..j] + s[j..];
      KeepPatternAppend(s[i..j], s[j..]);
      KeepPatternOfDigits(s, i, j);
      assert KeepPattern(s[i..]) == s[i..j] + KeepPattern(s[j..]);
    } else {
      KeepPatternCons(s, i);
      ConcatMatchesFrom(s, i + 1);
      var rest := MatchesFrom(s, i + 1);
      if IsSymbol(s[i]) {
        assert MatchesFrom(s, i) == [Match(i, s[i..i + 1])] + rest;
        ConcatMatchesCons(Match(i, s[i..i + 1]), rest);
        assert s[i..i + 1] == [s[i]];
      } else {
        assert MatchesFrom(s, i) == rest;
        assert [] + KeepPattern(s[i + 1..]) == KeepPattern(s[i + 1..]);
      }
    }
  }

  lemma {:induction false} ConcatTokensOfMatches(ts: seq<Token>, ms: seq<Match>)
    requires |ts| == |ms|
    requires forall k :: 0 <= k < |ts| ==> ts[k].value == ms[k].text
    ensures Concat(ts) == ConcatMatches(ms)
    decreases |ts|
  {
    if ts != [] {
      ConcatTokensOfMatches(ts[1..], ms[1..]);
    }
  }

  /** Nothing lost, nothing reordered: the token texts, concatenated in order,
      are exactly the input with every character outside the pattern removed. */
  lemma TokenizeKeepsPatternChars(s: string)
    ensures Concat(Tokenize(s)) == KeepPattern(s)
  {
    ConcatTokensOfMatches(Tokenize(s), Matches(s));
    ConcatMatchesFrom(s, 0);
  }

  lemma {:induction false} KeepPatternEmpty(s: string)
    ensures KeepPattern(s) == [] <==> forall k :: 0 <= k < |s| ==> !IsPatternChar(s[k])
    decreases |s|
  {
    if s != [] {
      KeepPatternEmpty(s[1..]);
      assert forall k :: 1 <= k < |s| ==> s[k] == s[1..][k - 1];
    }
  }

  lemma {:induction false} ConcatEmpty(ts: seq<Token>)
    requires forall k :: 0 <= k < |ts| ==> ts[k].value != []
    ensures Concat(ts) == [] <==> ts == []
  {
    if ts != [] {
      assert |Concat(ts)| >= |ts[0].value| > 0;
    }
  }

  /** The lexer yields no token exactly when the input has no character the
      pattern matches (letters, spaces and the like are dropped). */
  lemma TokenizeEmptyIff(s: string)
    ensures Tokenize(s) == [] <==> forall k :: 0 <= k < |s| ==> !IsPatternChar(s[k])
  {
    var ts := Tokenize(s);
    TokenizeKeepsPatternChars(s);
    KeepPatternEmpty(s);
    forall k | 0 <= k < |ts| ensures ts[k].value != [] {
      assert IsLexeme(Matches(s)[k].text);
    }
    ConcatEmpty(ts);
  }

  /** The matches go left to right and do not overlap. */
  ghost predicate Ordered(ms: seq<Match>) {
    forall k :: 0 <= k < |ms| - 1 ==> End(ms[k]) <= ms[k + 1].start
  }

  /** Each match's text is what the input holds at the match's position. */
  ghost predicate Located(s: string, ms: seq<Match>) {
    forall k :: 0 <= k < |ms| ==> End(ms[k]) <= |s| && s[ms[k].start..End(ms[k])] == ms[k].text
  }

  /** Every digit-run match is maximal: no digit just before it or just after it. */
  ghost predicate MaximalRuns(s: string, ms: seq<Match>) {
    forall k :: 0 <= k < |ms| && End(ms[k]) <= |s| && IsDigitRun(ms[k].text) ==>
      && (ms[k].start == 0 || !IsDigit(s[ms[k].start - 1]))
      && (End(ms[k]) == |s| || !IsDigit(s[End(ms[k])]))
  }

  lemma ConsOrdered(m: Match, rest: seq<Match>)
    requires rest != [] ==> End(m) <= rest[0].start
    requires Ordered(rest)
    ensures Ordered([m] + rest)
  {
    var r := [m] + rest;
    forall k | 0 <= k < |r| - 1
      ensures End(r[k]) <= r[k + 1].start
    {
      assert r[k + 1] == rest[k];
      if k > 0 {
        assert r[k] == rest[k - 1];
      }
    }
  }

  lemma ConsLocated(s: string, m: Match, rest: seq<Match>)
    requires End(m) <= |s| && s[m.start..End(m)] == m.text
    requires Located(s, rest)
    ensures Located(s, [m] + rest)
  {
    var r := [m] + rest;
    forall k | 0 <= k < |r|
      ensures End(r[k]) <= |s| && s[r[k].start..End(r[k])] == r[k].text
    {
      if k > 0 {
        assert r[k] == rest[k - 1];
      }
    }
  }

  lemma ConsMaximal(s: string, m: Match, rest: seq<Match>)
    requires IsDigitRun(m.text) && End(m) <= |s| ==>
      (m.start == 0 || !IsDigit(s[m.start - 1])) && (End(m) == |s| || !IsDigit(s[End(m)]))
    requires MaximalRuns(s, rest)
    ensures MaximalRuns(s, [m] + rest)
  {
    var r := [m] + rest;
    forall k | 0 <= k < |r| && End(r[k]) <= |s| && IsDigitRun(r[k].text)
      ensures r[k].start == 0 || !IsDigit(s[r[k].start - 1])
      ensures End(r[k]) == |s| || !IsDigit(s[End(r[k])])
    {
      if k > 0 {
        assert r[k] == rest[k - 1];
      }
    }
  }

  lemma ConsMatch(s: string, m: Match, rest: seq<Match>)
    requires End(m) <= |s| && s[m.start..End(m)] == m.text
    requires IsDigitRun(m.text) ==>
      (m.start == 0 || !IsDigit(s[m.start - 1])) && (End(m) == |s| || !IsDigit(s[End(m)]))
    requires rest != [] ==> End(m) <= rest[0].start
    requires Ordered(rest) && Located(s, rest) && MaximalRuns(s, rest)
    ensures Ordered([m] + rest) && Located(s, [m] + rest) && MaximalRuns(s, [m] + rest)
  {
    ConsOrdered(m, rest);
    ConsLocated(s, m, rest);
    ConsMaximal(s, m, rest);
  }

  lemma {:induction false} MatchesFromSound(s: string, i: nat)
    requires i <= |s|
    requires i < |s| && IsDigit(s[i]) ==> i == 0 || !IsDigit(s[i - 1])
    ensures Ordered(MatchesFrom(s, i)) && Located(s, MatchesFrom(s, i))
    ensures MaximalRuns(s, MatchesFrom(s, i))
    decreases |s| - i
  {
    if i == |s| {
    } else if IsDigit(s[i]) {
      var j := DigitRunEnd(s, i);
      var m := Match(i, s[i..j]);
      assert End(m) == j;
      assert MatchesFrom(s, i) == [m] + MatchesFrom(s, j);
      MatchesFromSound(s, j);
      ConsMatch(s, m, MatchesFrom(s, j));
    } else if IsSymbol(s[i]) {
      var m := Match(i, s[i..i + 1]);
      assert End(m) == i + 1 && !IsDigitRun(m.text);
      assert MatchesFrom(s, i) == [m] + MatchesFrom(s, i + 1);
      MatchesFromSound(s, i + 1);
      ConsMatch(s, m, MatchesFrom(s, i + 1));
    } else {
      assert MatchesFrom(s, i) == MatchesFrom(s, i + 1);
      MatchesFromSound(s, i + 1);
    }
  }

  /** The tokens are the pattern's matches in input order: each token's text
      occurs in the input at its match position, the matches do not overlap and
      go left to right, and a Número token is a maximal digit run (the input
      characters just before and just after it are not digits). */
  lemma TokensAreOrderedMatches(s: string)
    ensures var ts, ms := Tokenize(s), Matches(s);
      && |ts| == |ms|
      && (forall k :: 0 <= k < |ts| ==>
            ts[k].value == ms[k].text && End(ms[k]) <= |s| && s[ms[k].start..End(ms[k])] == ts[k].value)
      && (forall k :: 0 <= k < |ms| - 1 ==> End(ms[k]) <= ms[k + 1].start)
      && (forall k :: 0 <= k < |ts| && ts[k].kind == Numero ==>
            (ms[k].start == 0 || !IsDigit(s[ms[k].start - 1]))
            && (End(ms[k]) == |s| || !IsDigit(s[End(ms[k])])))
  {
    MatchesFromSound(s, 0);
  }

  /** The decimal-point quirk: "3.14" lexes as three tokens. */
  lemma TokenizeDecimal()
    ensures Tokenize("3.14") == [Token(Numero, "3"), Token(Desconocido, "."), Token(Numero, "14")]
  {
    var s := "3.14";
    assert DigitRunEnd(s, 2) == 4 && s[2..4] == "14" && MatchesFrom(s, 4) == [];
    assert MatchesFrom(s, 2) == [Match(2, "14")];
    assert s[1..2] == "." && IsSymbol(s[1]) && !IsDigit(s[1]);
    assert MatchesFrom(s, 1) == [Match(1, "."), Match(2, "14")];
    assert DigitRunEnd(s, 0) == 1 && s[0..1] == "3";
    assert Matches(s) == [Match(0, "3"), Match(1, "."), Match(2, "14")];
  }

  lemma TokenizeSum()
    ensures Tokenize("12+3") == [Token(Numero, "12"), Token(Operador, "+"), Token(Numero, "3")]
  {
    var s := "12+3";
    assert DigitRunEnd(s, 3) == 4 && s[3..4] == "3" && MatchesFrom(s, 4) == [];
    assert MatchesFrom(s, 3) == [Match(3, "3")];
    assert s[2..3] == "+" && IsSymbol(s[2]) && !IsDigit(s[2]);
    assert MatchesFrom(s, 2) == [Match(2, "+"), Match(3, "3")];
    assert DigitRunEnd(s, 0) == 2 && s[0..2] == "12";
    assert Matches(s) == [Match(0, "12"), Match(2, "+"), Match(3, "3")];
  }

  lemma TokenizeNothing()
    ensures Tokenize("") == []
  {
  }
}
