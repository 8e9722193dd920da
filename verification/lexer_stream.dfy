/** The token stream a lexer produces over repeated `next_token` calls, as
    consumed by a `while let Some(token) = lexer.next_token()` loop. */
module LexerStream {
  import opened Options
  import opened Token
  import opened Lexer

  function Min(a: nat, b: nat): nat {
    if a <= b then a else b
  }

  /** The lexer over `input` after `k` calls to `next_token`; `k` is the count
      of calls made so far. */
  function StateAfter(input: seq<char>, classify: Classifier, k: nat): (l: Lexer)
    ensures l.input == input
    ensures Valid(l)
  {
    if k == 0 then New(input) else NextToken(StateAfter(input, classify, k - 1), classify).lexer
  }

  /** What call number `k` (counting from 0) returns. */
  function CallResult(input: seq<char>, classify: Classifier, k: nat): Option<Token> {
    NextToken(StateAfter(input, classify, k), classify).token
  }

  /** After `k` calls the cursor stands on character `k`, or at the end of the
      input once every character has been returned. */
  lemma {:induction false} CursorAfter(input: seq<char>, classify: Classifier, k: nat)
    ensures StateAfter(input, classify, k).currentPos == Min(k, |input|)
    ensures StateAfter(input, classify, k).nextReadPos == Min(k, |input|) + 1
  {
    if k > 0 {
      CursorAfter(input, classify, k - 1);
    }
  }

  /** Call `k` returns the token of input character `k` (whitespace included,
      since the lexer skips nothing) for every `k` below the input length, and
      `None` for every later call. */
  lemma NthTokenIsNthChar(input: seq<char>, classify: Classifier, k: nat)
    ensures k < |input| ==> CallResult(input, classify, k) == Some(Token(classify(input[k]), input[k]))
    ensures k >= |input| ==> CallResult(input, classify, k) == None
  {
    CursorAfter(input, classify, k);
  }

  /** The end of input is a terminal state: once every character has been
      returned, further calls leave the lexer unchanged. */
  lemma {:induction false} TerminalState(input: seq<char>, classify: Classifier, k: nat)
    requires k >= |input|
    ensures StateAfter(input, classify, k) == StateAfter(input, classify, |input|)
    ensures CallResult(input, classify, k) == None
  {
    if k > |input| {
      TerminalState(input, classify, k - 1);
    }
    CursorAfter(input, classify, |input|);
  }

  /** Empty input: the very first call already returns `None`. */
  lemma EmptyInput(classify: Classifier, k: nat)
    ensures CallResult([], classify, k) == None
  {
    NthTokenIsNthChar([], classify, k);
  }

  /** Drain a lexer over `input`, collecting every token until `next_token`
      returns `None`: one token per input character, in order. */
  method Tokenize(input: seq<char>, classify: Classifier) returns (tokens: seq<Token>)
    ensures |tokens| == |input|
    ensures forall i :: 0 <= i < |tokens| ==> tokens[i] == Token(classify(input[i]), input[i])
  {
    var lexer := New(input);
    tokens := [];
    var step := NextToken(lexer, classify);
    while step.token.Some?
      invariant Valid(lexer) && lexer.input == input
      invariant |tokens| == lexer.currentPos
      invariant forall i :: 0 <= i < |tokens| ==> tokens[i] == Token(classify(input[i]), input[i])
      invariant step == NextToken(lexer, classify)
      decreases |input| - lexer.currentPos
    {
      tokens := tokens + [step.token.value];
      lexer := step.lexer;
      step := NextToken(lexer, classify);
    }
  }
}
