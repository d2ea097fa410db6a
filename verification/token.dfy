/** Tokens as produced by the scanner (src/ast/token.rs). */
module Tokens {
  import opened Common

  datatype TokenType =
    // Single-character tokens
    | LeftParen | RightParen | LeftBrace | RightBrace
    | Comma | Dot | Minus | Plus | Semicolon | Slash | Star
    // One or two character tokens
    | Bang | BangEqual
    | Equal | EqualEqual
    | Greater | GreaterEqual
    | Less | LessEqual
    // Literals
    | Identifier | String | Number
    // Keywords
    | And | Class | Else | False | Fun | For | If | Nil | Or
    | Print | Return | Super | This | True | Var | While
    | EOF

  /** The literal payload a token may carry; numbers are exact reals. */
  datatype Literal = Bool(b: bool) | Number(n: real) | String(s: string) | Nil

  datatype Token = Token(tokenType: TokenType, lexeme: string, literal: Option<Literal>, line: nat)

  /** The literal payload the parser relies on: a Number token carries a
      number and a String token carries a string. */
  predicate LiteralAttached(t: Token) {
    && (t.tokenType == TokenType.Number ==> t.literal.Some? && t.literal.value.Number?)
    && (t.tokenType == TokenType.String ==> t.literal.Some? && t.literal.value.String?)
  }
}
