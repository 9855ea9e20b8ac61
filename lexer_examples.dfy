/** The reference scanner on concrete inputs: the demonstration text of
    src/main.rs and small inputs that pin down each rule. */
module LexerExamples {
  import opened Tokens
  import opened LexerSpec
  import opened LexerLocality

  /** `s` holds the characters of `text`. Stating a line this way, rather
      than as equal to a literal, keeps the verifier from evaluating the
      scanner on the literal eagerly. */
  ghost predicate Reads(s: seq<char>, text: string) {
    |s| == |text| && forall k :: 0 <= k < |s| ==> s[k] == text[k]
  }

  /** One identifier step of the token sequence. */
  lemma IdentifierStep(s: seq<char>, i: nat, j: nat)
    requires i < j <= |s| && Significant(s[i]) && s[i] !in "():-="
    requires forall k :: i <= k < j ==> !IsWhitespace(s[k])
    requires j == |s| || IsWhitespace(s[j])
    ensures Tokenize(s, i) == [Identifier(s[i..j])] + Tokenize(s, j)
  {
    IdentEndOfRun(s, i, j);
  }

  /** An identifier ended by whitespace, then the tokens after that whitespace. */
  lemma IdentifierThenBlank(s: seq<char>, i: nat, j: nat)
    requires i < j < |s| && Significant(s[i]) && s[i] !in "():-="
    requires forall k :: i <= k < j ==> !IsWhitespace(s[k])
    requires IsWhitespace(s[j])
    ensures Tokenize(s, i) == [Identifier(s[i..j])] + Tokenize(s, j + 1)
  {
    IdentifierStep(s, i, j);
    TokenizeSkipsWhitespace(s, j);
  }

  /** A line that opens with `:=`, a space, a one-character operand and a
      space: the assignment and the operand come first. */
  lemma AssignmentHead(s: seq<char>)
    requires 5 <= |s| && s[0] == ':' && s[1] == '=' && s[2] == ' ' && s[4] == ' '
    requires Significant(s[3]) && s[3] !in "():-="
    ensures Tokenize(s, 0) == [Assign] + ([Identifier(s[3..4])] + Tokenize(s, 5))
  {
    assert Scan(s, 0) == Step(Assign, 2);
    TokenizeAtSignificant(s, 0);
    TokenizeSkipsWhitespace(s, 2);
    IdentifierThenBlank(s, 3, 4);
  }

  /** A final newline holds no token. */
  lemma NewlineAtEnd(s: seq<char>)
    requires EndsLine(s)
    ensures Tokenize(s, |s| - 1) == []
  {
    TokenizeSkipsWhitespace(s, |s| - 1);
  }

  lemma EmptyInput()
    ensures Tokenize("", 0) == []
  {
  }

  lemma {:induction false} CommentOnly(s: seq<char>)
    requires Reads(s, "# note")
    ensures Tokenize(s, 0) == []
  {
    LineEndOfRun(s, 0, 6);
    CommentSkipsLine(s, 0, false);
  }

  lemma {:induction false} NestedParentheses(s: seq<char>)
    requires Reads(s, "(()(()))")
    ensures Tokenize(s, 0) == [LParen, LParen, RParen, LParen, LParen, RParen, RParen, RParen]
  {
    assert Tokenize(s, 8) == [];
    assert Tokenize(s, 7) == [RParen];
    assert Tokenize(s, 6) == [RParen, RParen];
    assert Tokenize(s, 5) == [RParen, RParen, RParen];
    assert Tokenize(s, 4) == [LParen, RParen, RParen, RParen];
    assert Tokenize(s, 3) == [LParen, LParen, RParen, RParen, RParen];
    assert Tokenize(s, 2) == [RParen, LParen, LParen, RParen, RParen, RParen];
    assert Tokenize(s, 1) == [LParen, RParen, LParen, LParen, RParen, RParen, RParen];
  }

  /** Two-character operators win when the second character follows at once. */
  lemma {:induction false} TwoCharacterOperators(s: seq<char>)
    requires Reads(s, ":=->=>")
    ensures Tokenize(s, 0) == [Assign, ThinArrow, ThickArrow]
  {
    assert Tokenize(s, 6) == [];
    assert Tokenize(s, 4) == [ThickArrow];
    assert Tokenize(s, 2) == [ThinArrow, ThickArrow];
  }

  /** Without their second character, `:` is a colon and `-`, `=` are identifiers. */
  lemma {:induction false} LoneOperators(s: seq<char>)
    requires Reads(s, ": - =")
    ensures Tokenize(s, 0) == [Colon, Identifier("-"), Identifier("=")]
  {
    assert Tokenize(s, 5) == [];
    assert Tokenize(s, 4) == [Identifier("=")];
    assert Tokenize(s, 3) == [Identifier("=")];
    assert Tokenize(s, 2) == [Identifier("-"), Identifier("=")];
    assert Tokenize(s, 1) == [Identifier("-"), Identifier("=")];
  }

  /** A hyphen before identifier text is an identifier of its own. */
  lemma {:induction false} HyphenThenIdentifier(s: seq<char>)
    requires Reads(s, "-x")
    ensures Tokenize(s, 0) == [Identifier("-"), Identifier("x")]
  {
    IdentifierStep(s, 1, 2);
    assert s[1..2] == "x";
    assert Tokenize(s, 1) == [Identifier("x")];
  }

  /** Only whitespace ends an identifier: a closing parenthesis right after
      identifier text is part of the identifier. */
  lemma {:induction false} ParenthesisAbsorbed(s: seq<char>)
    requires Reads(s, "(foo)")
    ensures Tokenize(s, 0) == [LParen, Identifier("foo)")]
  {
    IdentifierStep(s, 1, 5);
    assert s[1..5] == "foo)";
    assert Tokenize(s, 1) == [Identifier("foo)")];
  }

  // The demonstration input of src/main.rs, line by line.

  const Line0: string := "            \n"
  const Line1: string := "# this is a comment\n"
  const Line2: string := "        := a 1\n"
  const Line3: string := ":= b 2\n"
  const Line4: string := ":= c (+ a b)\n"
  const Line5: string := "\U{2208} c \U{2115}\n"

  /** A line of spaces yields nothing. */
  lemma {:induction false} BlankLine(s: seq<char>)
    requires Reads(s, Line0)
    ensures EndsLine(s)
    ensures Tokenize(s, 0) == []
  {
    SkipWhitespaceRun(s, 0, 13);
  }

  /** A comment line yields nothing. */
  lemma {:induction false} CommentLine(s: seq<char>)
    requires Reads(s, Line1)
    ensures EndsLine(s)
    ensures Tokenize(s, 0) == []
  {
    LineEndOfRun(s, 0, 19);
    CommentSkipsLine(s, 0, false);
  }

  lemma {:induction false} FirstAssignOperands(s: seq<char>)
    requires Reads(s, Line2)
    ensures Tokenize(s, 10) == [Identifier("a"), Identifier("1")]
  {
    IdentifierThenBlank(s, 13, 14);
    assert s[13..14] == "1";
    IdentifierThenBlank(s, 11, 12);
    assert s[11..12] == "a";
    TokenizeSkipsWhitespace(s, 10);
  }

  /** Leading spaces are skipped before the first token. */
  lemma {:induction false} FirstAssignLine(s: seq<char>)
    requires Reads(s, Line2)
    ensures EndsLine(s)
    ensures Tokenize(s, 0) == [Assign, Identifier("a"), Identifier("1")]
  {
    FirstAssignOperands(s);
    SkipWhitespaceRun(s, 0, 8);
    assert Scan(s, 8) == Step(Assign, 10);
    TokenizeAtSignificant(s, 8);
  }

  lemma {:induction false} SecondAssignLine(s: seq<char>)
    requires Reads(s, Line3)
    ensures EndsLine(s)
    ensures Tokenize(s, 0) == [Assign, Identifier("b"), Identifier("2")]
  {
    NewlineAtEnd(s);
    IdentifierThenBlank(s, 5, 6);
    assert s[5..6] == "2";
    AssignmentHead(s);
    assert s[3..4] == "b";
  }

  lemma {:induction false} ApplicationOperands(s: seq<char>)
    requires Reads(s, Line4)
    ensures Tokenize(s, 8) == [Identifier("a"), Identifier("b)")]
  {
    IdentifierThenBlank(s, 10, 12);
    assert s[10..12] == "b)";
    IdentifierThenBlank(s, 8, 9);
    assert s[8..9] == "a";
  }

  lemma {:induction false} ApplicationArguments(s: seq<char>)
    requires Reads(s, Line4)
    ensures Tokenize(s, 5) == [LParen, Identifier("+"), Identifier("a"), Identifier("b)")]
  {
    ApplicationOperands(s);
    IdentifierThenBlank(s, 6, 7);
    assert s[6..7] == "+";
    assert Tokenize(s, 6) == [Identifier("+"), Identifier("a"), Identifier("b)")];
    assert Scan(s, 5) == Step(LParen, 6);
    TokenizeAtSignificant(s, 5);
  }

  /** The closing parenthesis stays inside the identifier `b)`. */
  lemma {:induction false} ApplicationLine(s: seq<char>)
    requires Reads(s, Line4)
    ensures EndsLine(s)
    ensures Tokenize(s, 0) ==
      [Assign, Identifier("c"), LParen, Identifier("+"), Identifier("a"), Identifier("b)")]
  {
    ApplicationArguments(s);
    AssignmentHead(s);
    assert s[3..4] == "c";
  }

  /** Characters outside ASCII are ordinary identifier content. */
  lemma {:induction false} UnicodeLine(s: seq<char>)
    requires Reads(s, Line5)
    ensures Tokenize(s, 0) == [Identifier("\U{2208}"), Identifier("c"), Identifier("\U{2115}")]
  {
    NewlineAtEnd(s);
    IdentifierThenBlank(s, 4, 5);
    assert s[4..5] == "\U{2115}";
    IdentifierThenBlank(s, 2, 3);
    assert s[2..3] == "c";
    IdentifierThenBlank(s, 0, 1);
    assert s[0..1] == "\U{2208}";
  }

  /** Text made of lines scans line by line. */
  lemma {:induction false} ScanByLines(l0: seq<char>, l1: seq<char>, l2: seq<char>,
                                       l3: seq<char>, l4: seq<char>, l5: seq<char>,
                                       t0: seq<Token<string>>, t1: seq<Token<string>>, t2: seq<Token<string>>,
                                       t3: seq<Token<string>>, t4: seq<Token<string>>, t5: seq<Token<string>>)
    requires EndsLine(l0) && EndsLine(l1) && EndsLine(l2) && EndsLine(l3) && EndsLine(l4)
    requires Tokenize(l0, 0) == t0 && Tokenize(l1, 0) == t1 && Tokenize(l2, 0) == t2
    requires Tokenize(l3, 0) == t3 && Tokenize(l4, 0) == t4 && Tokenize(l5, 0) == t5
    ensures Tokenize(l0 + l1 + l2 + l3 + l4 + l5, 0) == t0 + t1 + t2 + t3 + t4 + t5
  {
    TokenizeAppend(l0, l1);
    TokenizeAppend(l0 + l1, l2);
    TokenizeAppend(l0 + l1 + l2, l3);
    TokenizeAppend(l0 + l1 + l2 + l3, l4);
    TokenizeAppend(l0 + l1 + l2 + l3 + l4, l5);
  }

  /** The demonstration text's tokens, assembled from those of its lines. */
  lemma DemoAssembly(l0: seq<char>, l1: seq<char>, l2: seq<char>, l3: seq<char>, l4: seq<char>, l5: seq<char>)
    requires EndsLine(l0) && EndsLine(l1) && EndsLine(l2) && EndsLine(l3) && EndsLine(l4)
    requires Tokenize(l0, 0) == [] && Tokenize(l1, 0) == []
    requires Tokenize(l2, 0) == [Assign, Identifier("a"), Identifier("1")]
    requires Tokenize(l3, 0) == [Assign, Identifier("b"), Identifier("2")]
    requires Tokenize(l4, 0) == [Assign, Identifier("c"), LParen, Identifier("+"), Identifier("a"), Identifier("b)")]
    requires Tokenize(l5, 0) == [Identifier("\U{2208}"), Identifier("c"), Identifier("\U{2115}")]
    ensures Tokenize(l0 + l1 + l2 + l3 + l4 + l5, 0) == [
      Assign, Identifier("a"), Identifier("1"),
      Assign, Identifier("b"), Identifier("2"),
      Assign, Identifier("c"), LParen, Identifier("+"), Identifier("a"), Identifier("b)"),
      Identifier("\U{2208}"), Identifier("c"), Identifier("\U{2115}")]
  {
    ScanByLines(l0, l1, l2, l3, l4, l5,
                [], [], [Assign, Identifier("a"), Identifier("1")], [Assign, Identifier("b"), Identifier("2")],
                [Assign, Identifier("c"), LParen, Identifier("+"), Identifier("a"), Identifier("b)")],
                [Identifier("\U{2208}"), Identifier("c"), Identifier("\U{2115}")]);
  }

  /** The whole demonstration text: the blank first line and the comment
      yield nothing, and `(+ a b)` ends in the identifier `b)`. */
  lemma DemoInput(l0: seq<char>, l1: seq<char>, l2: seq<char>, l3: seq<char>, l4: seq<char>, l5: seq<char>)
    requires Reads(l0, Line0) && Reads(l1, Line1) && Reads(l2, Line2)
    requires Reads(l3, Line3) && Reads(l4, Line4) && Reads(l5, Line5)
    ensures Tokenize(l0 + l1 + l2 + l3 + l4 + l5, 0) == [
      Assign, Identifier("a"), Identifier("1"),
      Assign, Identifier("b"), Identifier("2"),
      Assign, Identifier("c"), LParen, Identifier("+"), Identifier("a"), Identifier("b)"),
      Identifier("\U{2208}"), Identifier("c"), Identifier("\U{2115}")]
  {
    BlankLine(l0);
    CommentLine(l1);
    FirstAssignLine(l2);
    SecondAssignLine(l3);
    ApplicationLine(l4);
    UnicodeLine(l5);
    DemoAssembly(l0, l1, l2, l3, l4, l5);
  }
}
