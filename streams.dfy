/** The token stream a caller sees by calling `next_token` again and again on
    one input, and what the ACME dialect does to that stream. */
module TokenStreams {
  import opened SqlTokens
  import opened Acme

  /** The results of successive `next_token` calls on `s`: every token, then
      the call that ended the stream (`Ok(None)` at end of input, or an error).
      A step that consumes nothing, or more than remains, also ends it. */
  function Tokens(lex: Lexer, s: seq<char>): seq<TokenResult>
    decreases |s|
  {
    var step := lex(s);
    if step.result.Ok? && step.result.value.Some? && 0 < step.consumed <= |s| then
      [step.result] + Tokens(lex, s[step.consumed..])
    else
      [step.result]
  }

  /** The shape of every stream: at least one result and at most one per
      input character plus the final one; the first is the tokenizer's first
      step, and every result before the last is a token. It stands alone as
      the statement of what `Tokens` delivers to a caller; the lemmas below
      compute streams exactly and do not need it. */
  lemma {:induction false} TokensShape(lex: Lexer, s: seq<char>)
    ensures 1 <= |Tokens(lex, s)| <= |s| + 1
    ensures Tokens(lex, s)[0] == lex(s).result
    ensures forall i :: 0 <= i < |Tokens(lex, s)| - 1 ==>
              Tokens(lex, s)[i].Ok? && Tokens(lex, s)[i].value.Some?
    decreases |s|
  {
    var step := lex(s);
    if step.result.Ok? && step.result.value.Some? && 0 < step.consumed <= |s| {
      TokensShape(lex, s[step.consumed..]);
    }
  }

  /** `k` factorial operators written back to back. */
  function Bangs(k: nat): (s: seq<char>)
    ensures |s| == 2 * k
    ensures forall i :: 0 <= i < |s| ==> s[i] == '!'
  {
    if k == 0 then [] else "!!" + Bangs(k - 1)
  }

  /** `k` factorial tokens, as successive `next_token` results. */
  function Factorials(k: nat): (ts: seq<TokenResult>)
    ensures |ts| == k
    ensures forall i :: 0 <= i < k ==> ts[i] == Ok(Some(FactorialToken))
  {
    if k == 0 then [] else [Ok(Some(FactorialToken))] + Factorials(k - 1)
  }

  /** On input without any `!`, the ACME tokenizer yields exactly the stream of
      the tokenizer it wraps: the dialect is a conservative extension. */
  lemma {:induction false} AgreesWithBaseWithoutBang(lex: Lexer, s: seq<char>)
    requires forall i :: 0 <= i < |s| ==> s[i] != '!'
    ensures Tokens(AcmeLexer(lex), s) == Tokens(lex, s)
  {
    var step := lex(s);
    assert AcmeLexer(lex)(s) == step;
    if step.result.Ok? && step.result.value.Some? && 0 < step.consumed <= |s| {
      AgreesWithBaseWithoutBang(lex, s[step.consumed..]);
    }
  }

  /** A leading `!!` read as the factorial token leaves the rest of the
      stream to the characters after it. */
  lemma FactorialFront(acme: Lexer, t: seq<char>)
    requires acme("!!" + t) == Step(Ok(Some(FactorialToken)), 2)
    ensures Tokens(acme, "!!" + t) == [Ok(Some(FactorialToken))] + Tokens(acme, t)
  {
    assert ("!!" + t)[2..] == t;
  }

  /** A run of `k` factorial operators, read by any tokenizer that turns a
      leading `!!` into the factorial token and consumes both characters. */
  lemma {:induction false} FactorialRunOf(acme: Lexer, k: nat, rest: seq<char>)
    requires forall t :: acme("!!" + t) == Step(Ok(Some(FactorialToken)), 2)
    ensures Tokens(acme, Bangs(k) + rest) == Factorials(k) + Tokens(acme, rest)
  {
    if k > 0 {
      var t := Bangs(k - 1) + rest;
      var front := [Ok(Some(FactorialToken))];
      assert Tokens(acme, Bangs(k) + rest) == front + Tokens(acme, t) by {
        assert Bangs(k) + rest == "!!" + t by {
          assert Bangs(k) == "!!" + Bangs(k - 1);
        }
        FactorialFront(acme, t);
      }
      assert Tokens(acme, t) == Factorials(k - 1) + Tokens(acme, rest) by {
        FactorialRunOf(acme, k - 1, rest);
      }
      assert front + (Factorials(k - 1) + Tokens(acme, rest)) ==
               (front + Factorials(k - 1)) + Tokens(acme, rest);
    } else {
      assert Bangs(k) + rest == rest;
    }
  }

  /** A run of `k` factorial operators yields `k` factorial tokens from the
      ACME tokenizer, and the stream then goes on as it would on the rest of
      the input alone. */
  lemma FactorialRun(lex: Lexer, k: nat, rest: seq<char>)
    ensures Tokens(AcmeLexer(lex), Bangs(k) + rest) ==
              Factorials(k) + Tokens(AcmeLexer(lex), rest)
  {
    forall t ensures AcmeLexer(lex)("!!" + t) == Step(Ok(Some(FactorialToken)), 2) {
      assert ("!!" + t)[0] == '!' && ("!!" + t)[1] == '!';
    }
    FactorialRunOf(AcmeLexer(lex), k, rest);
  }

  /** A `!` followed by any character other than `!`, wherever it stands,
      ends the stream with an error on that character: the `!` is neither
      dropped nor read as NOT. */
  lemma {:induction false} BangThenOtherEndsStream(lex: Lexer, k: nat, c: char, rest: seq<char>)
    requires c != '!'
    ensures Tokens(AcmeLexer(lex), Bangs(k) + ['!', c] + rest) ==
              Factorials(k) + [Err(UnexpectedChar(c, Position(0, 0)))]
  {
    var tail := ['!', c] + rest;
    assert Bangs(k) + ['!', c] + rest == Bangs(k) + tail;
    FactorialRun(lex, k, tail);
    BangThenOtherStops(lex, c, rest);
  }

  /** The step on `!` followed by another character ends the stream: the
      case k = 0 of `BangThenOtherEndsStream`, kept apart because that
      lemma's proof stays within the solver's budget only when this step is
      proved on its own. */
  lemma BangThenOtherStops(lex: Lexer, c: char, rest: seq<char>)
    requires c != '!'
    ensures Tokens(AcmeLexer(lex), ['!', c] + rest) == [Err(UnexpectedChar(c, Position(0, 0)))]
  {
    var tail := ['!', c] + rest;
    assert tail[0] == '!' && tail[1] == c;
    assert AcmeLexer(lex)(tail) == Step(Err(UnexpectedChar(c, Position(0, 0))), 1);
  }

  /** An odd number of `!` at the end of the input: the last one is the NOT
      token and the stream then ends as the wrapped tokenizer ends it on empty
      input. */
  lemma {:induction false} OddBangsEndWithNot(lex: Lexer, k: nat)
    ensures Tokens(AcmeLexer(lex), Bangs(k) + ['!']) ==
              Factorials(k) + [Ok(Some(Not)), lex([]).result]
  {
    FactorialRun(lex, k, ['!']);
    assert ['!'][1..] == [];
  }
}
