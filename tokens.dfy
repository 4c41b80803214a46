/** The value types shared by the base SQL tokenizer and the ACME dialect
    that wraps it: positions, tokens, tokenizer errors, expressions, and the
    shape of one `next_token` step. */
module SqlTokens {

  datatype Option<+T> = None | Some(value: T)

  datatype Result<+T, +E> = Ok(value: T) | Err(error: E)

  /** A location in the input, as line and column. */
  datatype Position = Position(line: nat, column: nat)

  /** A token of the base grammar, extended by a dialect's custom tokens `C`.
      The base tokens the ACME dialect never inspects are kept opaque
      as `Other`. */
  datatype SqlToken<+C> =
    | Not                      // logical NOT, written `!`
    | Custom(token: C)         // a token contributed by a dialect
    | Other(lexeme: string)    // every other token of the base grammar

  /** The error the ACME dialect raises itself, and every error of the base
      tokenizer, kept opaque. */
  datatype TokenizerError =
    | UnexpectedChar(ch: char, at: Position)
    | BaseError(description: string)

  /** The custom tokens of the ACME dialect. */
  datatype AcmeToken = Factorial   // `!!`

  /** An expression of the base grammar, extended by a dialect's custom
      expressions `C`. The base expressions are kept opaque as `BaseExpr`. */
  datatype SqlExpr<+C> =
    | CustomExpr(expr: C)
    | BaseExpr(text: string)

  /** The custom expressions of the ACME dialect. */
  datatype AcmeExpr = FactorialExpr(operand: SqlExpr<AcmeExpr>)

  type Token = SqlToken<AcmeToken>

  /** What one call of `next_token` returns: a token, `None` at the end of
      input, or an error. */
  type TokenResult = Result<Option<Token>, TokenizerError>

  /** The result of one `next_token` call together with the number of
      characters it consumed from the front of the remaining input. */
  datatype Step = Step(result: TokenResult, consumed: nat)

  /** A tokenizer whose only state is its remaining input, seen through its
      `next_token`: the step it takes on a given remaining input. */
  type Lexer = seq<char> -> Step

  /** A lexer never consumes more characters than remain. */
  ghost predicate Sound(lex: Lexer)
  {
    forall s :: lex(s).consumed <= |s|
  }
}
