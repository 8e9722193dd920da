# Monkey lexer: a verified model

This project models the lexer of a small Rust interpreter for the Monkey
language: the `TokenType` enum and `Token` record of `src/token/mod.rs`, and
the character-cursor state machine of `src/lexer/mod.rs`.

The lexer in this revision is minimal. `Lexer::new` decodes the input into
characters and loads the first one. `read_char` moves the cursor one step and
loads the next character, or `None` past the end. `next_token` returns `None`
once there is no current character; otherwise it returns one token for the
current character and advances by one. There is no whitespace skipping, no
identifier, number or keyword scanning, no `==`/`!=` lookahead and no `EOF`
token: every character, a space included, becomes exactly one token.

Modules:

- `Options` (`options.dfy`): Rust's `Option`, `Option::expect` as `Extract`
  (which requires `Some`), and `Vec::get` as `Get`.
- `Token` (`token.dfy`): `TokenType`, whose `INT` payload has the newtype
  `int64`, so its range [-2^63, 2^63) is carried by the type,
  `Token`, and `Token::new`.
- `Lexer` (`lexer.dfy`): the `Lexer` struct as an immutable value, with
  `New`, `ReadChar` and `NextToken` returning the next state. The invariant
  `Valid` is the cursor invariant: `nextReadPos == currentPos + 1`,
  `nextReadPos <= |input| + 1`, and `currentChar` is the input character at
  `currentPos`, or `None` past the end.
- `LexerStream` (`lexer_stream.dfy`): the state after `k` calls and what each
  call returns, and `Tokenize`, a loop that drains a lexer.
- `LexerTest` (`lexer_test.dfy`): the scenario of `test_lexer`.

`TokenType::from(char)` is not part of this model, and its table is not
invented here. Every operation that classifies a character takes the
conversion as a parameter `classify: char -> TokenType`. The statements about
token types are made relative to that parameter.

The `expect("Wrong read position")` in `read_char` is modelled by
`Option.Extract`, whose precondition `Some?` the verifier proves at the call
in `ReadChar`. So the indexed read is always in bounds and the `expect` never
fires.

## Model

| member | source | states |
|---|---|---|
| Options.Get | src/lexer/mod.rs:28-31 | `Vec::get`: the element at an in-bounds index, and `None` exactly when the index is out of bounds; the call in `ReadChar` meets `Extract`'s `requires Some?`, so the `expect` never fires |
| Token.Discriminant | src/token/mod.rs:2-22 | every token type has one of 14 discriminants, in declaration order; discriminant 2 is exactly `IDENT` and 3 exactly `INT` (that only these two carry a payload is fixed by the datatype declaration) |
| Token.Representative | src/token/mod.rs:2-22 | each of the 14 discriminants is taken by some variant |
| Token.VariantsAreClosed | src/token/mod.rs:2-22 | the variant set is closed: a payload-free token type is the one value with its discriminant |
| Token.PayloadFreeEquality | src/token/mod.rs:1-22 | two payload-free token types are equal exactly when they are the same variant |
| Token.DerivedEquality | src/token/mod.rs:1-22 | derived equality is structural: same variant, equal names for `IDENT`, equal values for `INT`, in both directions |
| Token.NewToken | src/token/mod.rs:30-35 | `Token::new(t, c)` yields a token whose type is `t` and whose literal is the single character `c` |
| Token.NewTokenInjective | src/token/mod.rs:24-35 | two `Token::new` results are equal exactly when both their types and their characters are equal |
| Lexer.ReadChar | src/lexer/mod.rs:23-36 | the input is unchanged; the current position becomes the old read position; the read position becomes the current position plus one; the current character is the input character there, or `None` past the end; the `expect` read is in bounds; the cursor invariant is re-established whenever the old read position was within the input |
| Lexer.New | src/lexer/mod.rs:12-21 | for every input, the new lexer keeps the input, has current position 0 and read position 1, satisfies the cursor invariant, and holds the first character, or `None` exactly when the input is empty |
| Lexer.NextToken | src/lexer/mod.rs:39-50 | returns `None` exactly when there is no current character, and then changes nothing; otherwise returns a token whose literal is the current character and whose type is its classification, and advances the cursor by exactly one; the cursor invariant is preserved |
| LexerStream.StateAfter | src/lexer/mod.rs:12-50 | every state reached from `new` by any number of `next_token` calls satisfies the cursor invariant, so the read position never exceeds the input length plus one |
| LexerStream.CursorAfter | src/lexer/mod.rs:12-50 | after `k` calls the current position is `min(k, n)` and the read position one more, for input length `n` |
| LexerStream.NthTokenIsNthChar | src/lexer/mod.rs:39-50 | call `k` returns the token of input character `k`, whitespace included, for every `k < n`, and `None` for every later call |
| LexerStream.TerminalState | src/lexer/mod.rs:40 | once all `n` characters are returned, the lexer state no longer changes and every further call returns `None` |
| LexerStream.EmptyInput | src/lexer/mod.rs:12-40 | on empty input the first call, and every call after it, returns `None` |
| LexerStream.Tokenize | src/lexer/mod.rs:39-50 | draining a lexer until `None` yields exactly one token per input character, in order, each carrying that character and its classification |
| LexerTest.TestLexerLiterals | src/lexer/mod.rs:53-73 | on `"=+(){{}},;"` the first four calls return tokens (so the `unwrap`s never panic) with literals `=`, `+`, `(`, `)` |
| LexerTest.TestLexerTypes | src/lexer/mod.rs:59-72 | when the classification maps `=`, `+`, `(`, `)` to `ASSIGN`, `PLUS`, `LPAREN`, `RPAREN`, the first four tokens have those types |
| LexerTest.TestLexerEnd | src/lexer/mod.rs:55 | the ten-character test input yields `None` on the eleventh call |

## Left out

- `TokenType::from(char)`: its body is not part of this model; it is a parameter of every operation that classifies a character.
- Mutation in place: `read_char` and `next_token` take `&mut self`; here they return the new state as a value. The sequence of states is the same.
- Integer width of `current_pos` and `next_read_pos` (`usize`): modelled as unbounded naturals. `Valid` bounds the read position by the input length plus one, so `next_read_pos += 1` cannot overflow for any input that fits in memory.
- Decoding: `input.chars().collect()` turns UTF-8 into Unicode scalar values; the model takes the already decoded `seq<char>`.
- `#[derive(Debug)]` formatting of token types.
- `src/repl/mod.rs`: prompt, line reading, printing and the exit loop are I/O. It also names `TokenType::Eof`, `TokenType::Ident` and a public `lexer::Lexer`, which this revision does not have.
- `src/main.rs`: locking standard input and output and starting the REPL.
- Whitespace skipping, identifier, integer and keyword scanning, two-character operators, and an end-of-input token: the code does not have them.
