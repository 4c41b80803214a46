/** The ACME dialect tokenizer: it recognises the factorial operator `!!`
    on top of a wrapped ANSI tokenizer and forwards every other case to it.
    Both share one character cursor, the wrapped tokenizer's. */
module Acme {
  import opened SqlTokens

  /** The token `!!` stands for. */
  const FactorialToken: Token := Custom(Factorial)

  /** One step of the ACME `next_token` on the remaining input `rest`, when the
      wrapped tokenizer would take the step `lex(rest)`. */
  function AcmeNext(rest: seq<char>, lex: Lexer): (s: Step)
    // never consumes past the end of input on its own paths
    ensures rest != [] && rest[0] == '!' ==> 1 <= s.consumed <= 2 && s.consumed <= |rest|
    // a lead character other than `!`, or no character at all: the wrapped
    // tokenizer's step, result and consumption alike
    ensures rest == [] || rest[0] != '!' ==> s == lex(rest)
    // `!!`: the factorial token, both characters consumed
    ensures |rest| >= 2 && rest[0] == '!' && rest[1] == '!' ==>
              s == Step(Ok(Some(FactorialToken)), 2)
    // a lone `!` at the end of input: the base NOT token, the `!` consumed
    ensures rest == ['!'] ==> s == Step(Ok(Some(Not)), 1)
    // `!` before any other character: an error naming that character at the
    // fixed position (0, 0), only the `!` consumed
    ensures |rest| >= 2 && rest[0] == '!' && rest[1] != '!' ==>
              s == Step(Err(UnexpectedChar(rest[1], Position(0, 0))), 1)
    // the only tokens built on a `!`-led path are NOT and the factorial token
    ensures rest != [] && rest[0] == '!' && s.result.Ok? ==>
              s.result.value == Some(Not) || s.result.value == Some(FactorialToken)
  {
    if rest == [] || rest[0] != '!' then
      lex(rest)
    else if |rest| == 1 then
      Step(Ok(Some(Not)), 1)
    else if rest[1] == '!' then
      Step(Ok(Some(FactorialToken)), 2)
    else
      Step(Err(UnexpectedChar(rest[1], Position(0, 0))), 1)
  }

  /** The ACME tokenizer as a lexer over the remaining input. Wrapping a
      sound lexer gives a sound lexer: the dialect never reads past the end
      of the input. */
  function AcmeLexer(lex: Lexer): (acme: Lexer)
    ensures Sound(lex) ==> Sound(acme)
  {
    s => AcmeNext(s, lex)
  }

  /** On a `!`-led input the step does not depend on the wrapped tokenizer at
      all: it is never consulted. */
  lemma BangLedIgnoresBase(rest: seq<char>, lex1: Lexer, lex2: Lexer)
    requires rest != [] && rest[0] == '!'
    ensures AcmeNext(rest, lex1) == AcmeNext(rest, lex2)
  {
  }

  /** The wrapped ANSI tokenizer. Its state is the character cursor
      (`chars`, `pos`); its own `next_token` is `lex` applied to the remaining
      input. `calls` counts the `next_token` calls it has served. */
  class AnsiTokenizer {
    const chars: seq<char>
    var pos: nat
    const lex: Lexer
    ghost var calls: nat

    ghost predicate Valid()
      reads this
    {
      pos <= |chars| && Sound(lex)
    }

    /** The characters not yet consumed. */
    function Remaining(): (rest: seq<char>)
      reads this
      requires Valid()
      ensures |rest| == |chars| - pos
      ensures chars == chars[..pos] + rest
    {
      chars[pos..]
    }

    constructor (input: seq<char>, lex: Lexer)
      requires Sound(lex)
      ensures Valid()
      ensures chars == input && pos == 0 && this.lex == lex && calls == 0
    {
      chars := input;
      pos := 0;
      this.lex := lex;
      calls := 0;
    }

    /** The next character, without consuming it; `None` at end of input. */
    method PeekChar() returns (c: Option<char>)
      requires Valid()
      ensures c.Some? <==> pos < |chars|
      ensures c.Some? ==> c.value == chars[pos] && c.value == Remaining()[0]
    {
      if pos < |chars| {
        c := Some(chars[pos]);
      } else {
        c := None;
      }
    }

    /** Consumes the next character and returns it: the one `PeekChar` would
        have returned. At end of input nothing moves. */
    method NextChar() returns (c: Option<char>)
      requires Valid()
      modifies this`pos
      ensures Valid()
      ensures c == (if old(pos) < |chars| then Some(chars[old(pos)]) else None)
      ensures pos == if c.Some? then old(pos) + 1 else old(pos)
    {
      if pos < |chars| {
        c := Some(chars[pos]);
        pos := pos + 1;
      } else {
        c := None;
      }
    }

    /** The base tokenizer's `next_token`: the step `lex` takes on the
        remaining input, which advances the cursor by what it consumed. */
    method NextToken() returns (r: TokenResult)
      requires Valid()
      modifies this`pos, this`calls
      ensures Valid()
      ensures r == lex(old(Remaining())).result
      ensures pos == old(pos) + lex(old(Remaining())).consumed
      ensures calls == old(calls) + 1
    {
      var step := lex(chars[pos..]);
      pos := pos + step.consumed;
      calls := calls + 1;
      r := step.result;
    }
  }

  /** The ACME tokenizer: it holds the wrapped tokenizer and reads its cursor. */
  class AcmeTokenizer {
    const ansi: AnsiTokenizer

    constructor (ansi: AnsiTokenizer)
      ensures this.ansi == ansi
    {
      this.ansi := ansi;
    }

    /** `next_token`: `!!` becomes the factorial token, a lone `!` at the end
        of input the NOT token, a `!` before anything else an error; any
        other lead character, and the end of input, go to the wrapped
        tokenizer unchanged. */
    method NextToken() returns (r: TokenResult)
      requires ansi.Valid()
      modifies ansi
      ensures ansi.Valid()
      // the result and the new cursor are those of one `AcmeNext` step
      ensures r == AcmeNext(old(ansi.Remaining()), ansi.lex).result
      ensures ansi.pos == old(ansi.pos) + AcmeNext(old(ansi.Remaining()), ansi.lex).consumed
      // the wrapped tokenizer serves this call exactly when the input is
      // exhausted or the lead character is not `!`
      ensures ansi.calls == old(ansi.calls) +
                (if old(ansi.pos) == |ansi.chars| || ansi.chars[old(ansi.pos)] != '!' then 1 else 0)
      // on the `!`-led paths the cursor moves forward by one or two
      ensures old(ansi.pos) < |ansi.chars| && ansi.chars[old(ansi.pos)] == '!' ==>
                old(ansi.pos) < ansi.pos <= old(ansi.pos) + 2
    {
      var c := ansi.PeekChar();
      match c {
        case Some(ch) =>
          if ch == '!' {
            var _ := ansi.NextChar();   // the first `!`
            var c2 := ansi.PeekChar();
            match c2 {
              case Some(ch2) =>
                if ch2 == '!' {
                  var _ := ansi.NextChar();   // the second `!`
                  r := Ok(Some(FactorialToken));
                } else {
                  r := Err(UnexpectedChar(ch2, Position(0, 0)));
                }
              case None =>
                r := Ok(Some(Not));
            }
          } else {
            r := ansi.NextToken();
          }
        case None =>
          r := ansi.NextToken();
      }
    }
  }
}
