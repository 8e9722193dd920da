/** The token model of the Monkey language: the closed set of token types and
    the token record the lexer hands out (src/token/mod.rs). */
module Token {

  /** Rust's `i64`: the payload of an integer literal token. */
  newtype int64 = x: int | -0x8000_0000_0000_0000 <= x < 0x8000_0000_0000_0000

  /** `TokenType`, in declaration order. Only `Ident` and `Int` carry a payload. */
  datatype TokenType =
    | Illegal
    | Eof
    | Ident(name: string)
    | Int(value: int64)
    | Assign
    | Plus
    | Comma
    | Semicolon
    | LParen
    | RParen
    | LBrace
    | RBrace
    | Function
    | Let

  /** A token: its type and the single character it was read from. */
  datatype Token = Token(tokenType: TokenType, literal: char)

  /** The conversion `TokenType::from(char)`. Its table is not part of this model,
      so every operation that classifies a character takes one as a parameter. */
  type Classifier = char -> TokenType

  /** Number of variants of `TokenType`. */
  const VariantCount: nat := 14

  predicate HasPayload(t: TokenType) {
    t.Ident? || t.Int?
  }

  /** The discriminant of a token type: its position in the declaration. That
      only `Ident` and `Int` carry a payload is fixed by the datatype itself. */
  function Discriminant(t: TokenType): (k: nat)
    ensures k < VariantCount
    ensures k == 2 <==> t.Ident?
    ensures k == 3 <==> t.Int?
  {
    match t
    case Illegal => 0
    case Eof => 1
    case Ident(_) => 2
    case Int(_) => 3
    case Assign => 4
    case Plus => 5
    case Comma => 6
    case Semicolon => 7
    case LParen => 8
    case RParen => 9
    case LBrace => 10
    case RBrace => 11
    case Function => 12
    case Let => 13
  }

  /** One representative of each variant, indexed by discriminant. */
  function Representative(k: nat): (t: TokenType)
    requires k < VariantCount
    ensures Discriminant(t) == k
  {
    [Illegal, Eof, Ident(""), Int(0), Assign, Plus, Comma, Semicolon,
     LParen, RParen, LBrace, RBrace, Function, Let][k]
  }

  /** The variant set is closed: a payload-free token type is the only value
      with its discriminant, so the discriminant identifies it completely. */
  lemma VariantsAreClosed(t: TokenType)
    ensures !HasPayload(t) ==> t == Representative(Discriminant(t))
  {
  }

  /** Two token types without payload are equal exactly when they are the same variant. */
  lemma PayloadFreeEquality(a: TokenType, b: TokenType)
    requires !HasPayload(a) && !HasPayload(b)
    ensures a == b <==> Discriminant(a) == Discriminant(b)
  {
  }

  /** The derived `PartialEq` is structural: same variant, and equal payloads
      for the two variants that carry one. */
  lemma DerivedEquality(a: TokenType, b: TokenType)
    ensures a == b <==>
      && Discriminant(a) == Discriminant(b)
      && (a.Ident? ==> b.Ident? && a.name == b.name)
      && (a.Int? ==> b.Int? && a.value == b.value)
  {
  }

  /** `Token::new`: a token carrying exactly the given type and character. */
  function NewToken(tokenType: TokenType, literal: char): (tok: Token)
    ensures tok.tokenType == tokenType
    ensures tok.literal == literal
  {
    Token(tokenType, literal)
  }

  /** `Token::new` loses nothing: the token determines both of its arguments. */
  lemma NewTokenInjective(t1: TokenType, c1: char, t2: TokenType, c2: char)
    ensures NewToken(t1, c1) == NewToken(t2, c2) <==> t1 == t2 && c1 == c2
  {
  }
}
