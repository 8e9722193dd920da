/** The scenario of `test_lexer` in src/lexer/mod.rs. */
module LexerTest {
  import opened Options
  import opened Token
  import opened Lexer
  import opened LexerStream

  const TestInput: seq<char> := "=+(){{}},;"

  /** The first four calls on the test input each return a token (so the
      test's `unwrap`s never panic) carrying `=`, `+`, `(` and `)`, classified by
      whatever `classify` is. */
  lemma TestLexerLiterals(classify: Classifier)
    ensures CallResult(TestInput, classify, 0) == Some(Token(classify('='), '='))
    ensures CallResult(TestInput, classify, 1) == Some(Token(classify('+'), '+'))
    ensures CallResult(TestInput, classify, 2) == Some(Token(classify('('), '('))
    ensures CallResult(TestInput, classify, 3) == Some(Token(classify(')'), ')'))
  {
    NthTokenIsNthChar(TestInput, classify, 0);
    NthTokenIsNthChar(TestInput, classify, 1);
    NthTokenIsNthChar(TestInput, classify, 2);
    NthTokenIsNthChar(TestInput, classify, 3);
  }

  /** With a classification that maps `=`, `+`, `(` and `)` as the test expects,
      the four tokens have types `ASSIGN`, `PLUS`, `LPAREN` and `RPAREN`. */
  lemma TestLexerTypes(classify: Classifier)
    requires classify('=') == Assign && classify('+') == Plus
    requires classify('(') == LParen && classify(')') == RParen
    ensures CallResult(TestInput, classify, 0).value.tokenType == Assign
    ensures CallResult(TestInput, classify, 1).value.tokenType == Plus
    ensures CallResult(TestInput, classify, 2).value.tokenType == LParen
    ensures CallResult(TestInput, classify, 3).value.tokenType == RParen
  {
    TestLexerLiterals(classify);
  }

  /** The test input has ten characters, so the eleventh call returns `None`. */
  lemma TestLexerEnd(classify: Classifier)
    ensures CallResult(TestInput, classify, 10) == None
  {
    NthTokenIsNthChar(TestInput, classify, 10);
  }
}
