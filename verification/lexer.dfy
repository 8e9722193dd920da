/** The character-cursor state machine of the Monkey lexer (src/lexer/mod.rs).

    The lexer is a value: `ReadChar` and `NextToken` return the next state
    instead of mutating a struct in place. */
module Lexer {
  import opened Options
  import opened Token

  /** The `Lexer` struct: the decoded input, the index of the current
      character, the index of the next character to read, and the current
      character itself (`None` past the end). */
  datatype Lexer = Lexer(input: seq<char>, currentPos: nat, nextReadPos: nat, currentChar: Option<char>)

  /** The cursor invariant every reachable state keeps: the read position is one
      past the current position and at most one past the end of the input, and
      the current character is the input character at the current position. */
  predicate Valid(l: Lexer) {
    && l.nextReadPos == l.currentPos + 1
    && l.nextReadPos <= |l.input| + 1
    && l.currentChar == Get(l.input, l.currentPos)
  }

  /** `read_char`: move the cursor to the read position and load its character.
      The `expect` on the indexed read is modelled by `Extract`, whose
      precondition is discharged here: it never fires. */
  function ReadChar(l: Lexer): (r: Lexer)
    ensures r.input == l.input
    ensures r.currentPos == l.nextReadPos
    ensures r.nextReadPos == r.currentPos + 1
    ensures r.currentChar.Some? <==> r.currentPos < |r.input|
    ensures r.currentChar.Some? ==> r.currentChar.value == r.input[r.currentPos]
    ensures l.nextReadPos <= |l.input| ==> Valid(r)
  {
    var c := if l.nextReadPos >= |l.input| then None else Some(Get(l.input, l.nextReadPos).Extract());
    Lexer(l.input, l.nextReadPos, l.nextReadPos + 1, c)
  }

  /** `Lexer::new`: a lexer over `input` with the first character loaded. */
  function New(input: seq<char>): (r: Lexer)
    ensures r.input == input
    ensures r.currentPos == 0 && r.nextReadPos == 1
    ensures Valid(r)
    ensures |input| == 0 <==> r.currentChar.None?
    ensures |input| > 0 ==> r.currentChar == Some(input[0])
  {
    ReadChar(Lexer(input, 0, 0, None))
  }

  /** The result of one `next_token` call: the lexer's new state and the
      token it returned, if any. */
  datatype Step = Step(lexer: Lexer, token: Option<Token>)

  /** `next_token`: at the end of input return `None` and change nothing;
      otherwise return the current character classified by `classify`, and
      advance the cursor by one. */
  function NextToken(l: Lexer, classify: Classifier): (r: Step)
    ensures r.token.None? <==> l.currentChar.None?
    ensures l.currentChar.None? ==> r.lexer == l
    ensures l.currentChar.Some? ==>
      && r.token.value.literal == l.currentChar.value
      && r.token.value.tokenType == classify(l.currentChar.value)
      && r.lexer.input == l.input
      && r.lexer.currentPos == l.nextReadPos
    ensures Valid(l) ==> Valid(r.lexer)
    ensures Valid(l) && l.currentChar.Some? ==> r.lexer.currentPos == l.currentPos + 1
  {
    match l.currentChar
    case None => Step(l, None)
    case Some(c) =>
      var token := Token(classify(c), c);
      Step(ReadChar(l), Some(token))
  }
}
