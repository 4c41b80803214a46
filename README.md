# ACME dialect tokenizer

A model of the ACME example dialect of the extensible SQL tokenizer. The
dialect adds the factorial operator `!!` to an ANSI SQL tokenizer that it
wraps. Its `next_token` reads the character cursor it shares with the
wrapped tokenizer and settles three cases itself:

- `!!` becomes the custom token `Factorial`, and both characters are consumed;
- a lone `!` at the end of input becomes the base `Not` token, and the `!` is consumed;
- `!` followed by any other character is the error `UnexpectedChar(c, (0, 0))`.
  Only the `!` is consumed, and `c` stays in the input.

Every other case goes unchanged to the wrapped tokenizer. That covers a lead
character other than `!` and the end of input.

Files:

- `tokens.dfy` (module `SqlTokens`): positions, tokens, tokenizer errors and
  expressions (base-grammar tokens, errors and expressions kept opaque), with the ACME custom token `Factorial` and custom expression
  `FactorialExpr`. It also defines `Step`, a `next_token` result paired with
  the number of characters consumed, and `Lexer`, a tokenizer seen as the
  step it takes on a remaining input.
- `acme.dfy` (module `Acme`): `AcmeNext`, the pure specification of one ACME
  step. `AnsiTokenizer` is the wrapped tokenizer: a class owning the shared
  cursor (`chars`, `pos`), with `PeekChar`, `NextChar` and its own
  `NextToken`. `AcmeTokenizer` holds a reference to it. Its `NextToken`
  follows the source statement by statement and is proved equal to one
  `AcmeNext` step. A ghost counter `calls` records whether the wrapped
  tokenizer served the call.
- `streams.dfy` (module `TokenStreams`): `Tokens`, the stream seen by a
  caller that calls `next_token` until it returns no token or an error.
  Lemmas relate the ACME stream to the base stream.

The wrapped ANSI tokenizer's own `next_token` is not part of this model. Its
only state is its peekable character iterator (examples/acme_parser.rs:96),
so the model takes it as a parameter `lex`. It is a function from the
remaining input to a step. `Sound(lex)` says it never consumes past the end
of input.

Two consequences of the code worth stating plainly:

- A `!` followed by any other character, whitespace included (`"! 5"`), is
  `UnexpectedChar`, not NOT. Only a `!` that is the last character of the
  input becomes `Not`.
- The error position is always line 0, column 0, wherever the cursor is.

## Model

| member | source | states |
|---|---|---|
| `Acme.AcmeNext` | examples/acme_parser.rs:42-63 | One ACME step on the remaining input, case by case. With no character or a lead other than `!`, it is exactly the wrapped tokenizer's step: same result, same consumption. `!!` gives `Custom(Factorial)` and consumes 2. A lone trailing `!` gives `Not` and consumes 1. `!` then any `c` other than `!` gives `Err(UnexpectedChar(c, Position(0,0)))` and consumes 1. On `!`-led paths it consumes 1 or 2 characters, never more than remain, and the only tokens it builds are `Not` and `Factorial`. |
| `Acme.AcmeLexer` | examples/acme_parser.rs:46-57 | If the wrapped tokenizer never consumes past the end of input, neither does the ACME tokenizer built on it. |
| `Acme.BangLedIgnoresBase` | examples/acme_parser.rs:46-57 | On a `!`-led input the ACME step is the same whatever the wrapped tokenizer does, so the wrapped tokenizer is never consulted. |
| `Acme.AnsiTokenizer.constructor` | examples/acme_parser.rs:96 | The wrapped tokenizer starts with its cursor at the start of the given input and has served no calls. |
| `Acme.AnsiTokenizer.PeekChar` | examples/acme_parser.rs:44-48 | Returns the character under the cursor without moving it, or `None` exactly when the input is exhausted. |
| `Acme.AnsiTokenizer.NextChar` | examples/acme_parser.rs:47-51 | Returns what `PeekChar` would return. It advances the cursor by one when a character remains and leaves it in place at the end of input. |
| `Acme.AnsiTokenizer.NextToken` | examples/acme_parser.rs:59-61 | The wrapped tokenizer's `next_token`: it returns the result of `lex` on the remaining input, advances the cursor by what `lex` consumed, and counts one served call. |
| `Acme.AcmeTokenizer.constructor` | examples/acme_parser.rs:99-101 | The ACME tokenizer shares the given wrapped tokenizer. |
| `Acme.AcmeTokenizer.NextToken` | examples/acme_parser.rs:42-63 | The result and the new cursor are exactly those of one `AcmeNext` step on the input remaining before the call. The wrapped tokenizer serves the call (one more `calls`) exactly when the input is exhausted or the lead character is not `!`, and otherwise not at all. On `!`-led paths the cursor moves forward by 1 or 2. |
| `TokenStreams.TokensShape` | examples/acme_parser.rs:42-63 | Repeated `next_token` calls on an input of length n give between 1 and n + 1 results. The first is the tokenizer's first step, and every result but the last is a token. |
| `TokenStreams.AgreesWithBaseWithoutBang` | examples/acme_parser.rs:44-61 | On input containing no `!`, the ACME tokenizer yields exactly the stream of the tokenizer it wraps: every result, the end and any error alike. |
| `TokenStreams.FactorialFront` | examples/acme_parser.rs:50-52 | When a tokenizer reads a leading `!!` as `Factorial` and consumes both characters, the stream is that token followed by the stream of the characters after it. |
| `TokenStreams.FactorialRunOf` | examples/acme_parser.rs:50-52 | Any tokenizer that turns a leading `!!` into `Factorial` and consumes both characters reads k copies of `!!` as k `Factorial` tokens, then continues as on the rest of the input. |
| `TokenStreams.FactorialRun` | examples/acme_parser.rs:46-52 | The ACME tokenizer reads k copies of `!!` as k `Factorial` tokens, then continues as it would on the rest of the input alone. |
| `TokenStreams.BangThenOtherEndsStream` | examples/acme_parser.rs:46-54 | After any run of `!!`, a `!` followed by another character ends the stream with `UnexpectedChar` on that character. The `!` is neither dropped nor read as NOT, and this includes `"! 5"`. |
| `TokenStreams.OddBangsEndWithNot` | examples/acme_parser.rs:46-56 | An odd run of `!` at the end of input gives `Factorial` tokens, then `Not` for the last `!`, then whatever the wrapped tokenizer returns on empty input. |

## Left out

- Locking: the `Arc<Mutex<…>>` around the tokenizers and parsers and the `lock().unwrap()` calls are concurrency plumbing. The model has one sequential cursor, and an object reference stands for the shared handle.
- The ACME tokenizer's `precedence`, `peek_token`, `peek_char` and `next_char`: they are `unimplemented!()` in the source and have no behaviour to model. `PeekChar` and `NextChar` are modelled on the wrapped tokenizer, which is what `next_token` calls.
- `AcmeParser::parse_prefix` and `parse_infix`: they only forward to the ANSI parser, which is not part of this model. No member builds an `AcmeExpr`, because nothing in the source builds one.
- The ANSI tokenizer's token grammar, the ANSI parser and `parse_expr` come from a library that is not part of this model. The wrapped tokenizer's `next_token` is the parameter `lex`, and the base tokens the dialect never inspects are kept opaque as `Other`.
- The wrapped tokenizer's `peek_char` and `next_char` belong to the ANSI tokenizer, whose source is not part of this model. They are modelled as a plain one-character cursor over the input (`PeekChar`, `NextChar`); the "consumes 1 or 2 characters" results of `AcmeNext` and `AcmeTokenizer.NextToken` rest on that.
- `main`: a driver with a fixed input string that prints its result (I/O).
- `TokenStreams.TokensShape`: the stream function `Tokens` ends the stream if a tokenizer returns a token but consumes nothing or more than remains. A real caller would loop or fail there. `Sound` excludes overrunning; a tokenizer that stalls is not modelled.
