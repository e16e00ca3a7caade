/**
 * `Expression`, the object a caller builds from an infix text: its token
 * list, its postfix parse stack, the tokenized/parsed flags, the last
 * error and the last result, updated in place by `tokenize`, `parse` and
 * `eval`.
 *
 * The float semantics `fo` and the clock reading `now` that `now()`
 * returns are parameters of the operations that need them.
 */
module Engine {
  import opened Wrappers
  import opened Int64
  import opened Variant
  import opened Tokens
  import opened Lexer
  import opened Operands
  import opened Parser
  import opened Evaluator

  /**
   * `t` is what `get_token` delivers reading `s` from `a`: the token of `s`
   * from the first non-blank character at or after `a`, ending at `b`.
   */
  ghost predicate LexedAt(s: string, t: Token, a: nat, b: nat, fo: FloatOps) {
    a <= b <= |s| && Spans(s, SkipBlank(s, a), t, b, fo)
  }

  /** `toks` are the tokens read from the start of `s` one after the other, token `i` from `ends[i]`. */
  ghost predicate Lexed(s: string, toks: seq<Token>, ends: seq<nat>, fo: FloatOps) {
    |ends| == |toks| + 1 && ends[0] == 0 && ends[|toks|] <= |s| &&
    forall i :: 0 <= i < |toks| ==> LexedAt(s, toks[i], ends[i], ends[i + 1], fo)
  }

  lemma LexedAppend(s: string, toks: seq<Token>, ends: seq<nat>, t: Token, next: nat, fo: FloatOps)
    requires Lexed(s, toks, ends, fo) && LexedAt(s, t, ends[|toks|], next, fo)
    ensures Lexed(s, toks + [t], ends + [next], fo)
  {
    var toks', ends' := toks + [t], ends + [next];
    forall i | 0 <= i < |toks'|
      ensures LexedAt(s, toks'[i], ends'[i], ends'[i + 1], fo)
    {
      if i < |toks| {
        assert toks'[i] == toks[i] && ends'[i] == ends[i] && ends'[i + 1] == ends[i + 1];
      }
    }
  }

  /** A delivered token carries a callback when it is evaluated. */
  lemma LexemeCallable(t: Token, la: char, fo: FloatOps)
    requires Lexeme(t, la, fo)
    ensures Callable(t)
  {
  }

  /** From `e` on, `s` holds only blanks, or blanks and a string literal that is never closed. */
  ghost predicate Finished(s: string, e: nat)
    requires e <= |s|
  {
    var st := SkipBlank(s, e);
    st == |s| || Unclosed(s, st)
  }

  /** Reading from `e` ends the tokens: with no error when `s` is finished there, otherwise with `failure`. */
  ghost predicate Closes(s: string, e: nat, failure: Option<LexErr>, fo: FloatOps)
    requires e <= |s|
  {
    if failure.None? then Finished(s, e) else Fails(s, e, failure.value, fo)
  }

  /**
   * `toks` are the tokens `tokenize` reads from `s`, one after the other
   * from the start, until the text is finished (`failure` is `None`) or a
   * lexical error stops it (`failure` is that error).
   */
  ghost predicate Tokenized(s: string, toks: seq<Token>, failure: Option<LexErr>, fo: FloatOps) {
    exists ends :: Lexed(s, toks, ends, fo) && Closes(s, ends[|toks|], failure, fo)
  }

  /** Two readings of the same text agree token by token, and on where each token ends. */
  lemma {:induction false} LexedAgree(s: string, a: seq<Token>, ea: seq<nat>, b: seq<Token>, eb: seq<nat>, k: nat, fo: FloatOps)
    requires Lexed(s, a, ea, fo) && Lexed(s, b, eb, fo) && k <= |a| && k <= |b|
    ensures a[..k] == b[..k] && ea[k] == eb[k]
  {
    if k > 0 {
      LexedAgree(s, a, ea, b, eb, k - 1, fo);
      assert LexedAt(s, a[k - 1], ea[k - 1], ea[k], fo) && LexedAt(s, b[k - 1], eb[k - 1], eb[k], fo);
      SpanUnique(s, SkipBlank(s, ea[k - 1]), a[k - 1], ea[k], b[k - 1], eb[k], fo);
      assert a[..k] == a[..k - 1] + [a[k - 1]] && b[..k] == b[..k - 1] + [b[k - 1]];
    }
  }

  /** Where the reading closes, no further token begins. */
  lemma ClosesNoToken(s: string, e: nat, failure: Option<LexErr>, t: Token, n: nat, fo: FloatOps)
    requires e <= |s| && Closes(s, e, failure, fo)
    ensures !LexedAt(s, t, e, n, fo)
  {
    var st := SkipBlank(s, e);
    if failure.None? && st < |s| {
      UnclosedNoSpan(s, st, t, n, fo);
    }
  }

  /** The reading closes one way only: no error, or one error. */
  lemma ClosesUnique(s: string, e: nat, f1: Option<LexErr>, f2: Option<LexErr>, fo: FloatOps)
    requires e <= |s| && Closes(s, e, f1, fo) && Closes(s, e, f2, fo)
    ensures f1 == f2
  {
    if f1.Some? && f2.Some? {
      FailsUnique(s, e, f1.value, f2.value, fo);
    }
  }

  /** `Tokenized` determines the tokens of a text and the error that stops them. */
  lemma TokenizedUnique(s: string, a: seq<Token>, fa: Option<LexErr>, b: seq<Token>, fb: Option<LexErr>, fo: FloatOps)
    requires Tokenized(s, a, fa, fo) && Tokenized(s, b, fb, fo)
    ensures a == b && fa == fb
  {
    var ea :| Lexed(s, a, ea, fo) && Closes(s, ea[|a|], fa, fo);
    var eb :| Lexed(s, b, eb, fo) && Closes(s, eb[|b|], fb, fo);
    if |a| < |b| {
      LexedAgree(s, a, ea, b, eb, |a|, fo);
      assert LexedAt(s, b[|a|], eb[|a|], eb[|a| + 1], fo);
      ClosesNoToken(s, ea[|a|], fa, b[|a|], eb[|a| + 1], fo);
    } else if |b| < |a| {
      LexedAgree(s, a, ea, b, eb, |b|, fo);
      assert LexedAt(s, a[|b|], ea[|b|], ea[|b| + 1], fo);
      ClosesNoToken(s, eb[|b|], fb, a[|b|], ea[|b| + 1], fo);
    } else {
      LexedAgree(s, a, ea, b, eb, |a|, fo);
      assert a == a[..|a|] && b == b[..|b|];
      ClosesUnique(s, ea[|a|], fa, fb, fo);
    }
  }

  class Expression {
    var tokens: seq<Token>
    var parseStack: seq<Token>
    var tokenized: bool
    var parsed: bool
    var err: Option<RpnError>
    var reseval: Option<EVar>

    /** Every operator and function, in the token list and in the parse stack, carries a callback. */
    ghost predicate Valid()
      reads this
    {
      AllCallable(tokens) && AllCallable(parseStack) && Runnable(parseStack)
    }

    /**
     * `Expression::new`: an empty expression, then `parse` of `exp`; a
     * failure is recorded in `err`.
     */
    constructor (exp: string, fo: FloatOps)
      ensures Valid() && reseval == None
      ensures tokenized ==> Tokenized(exp, tokens, None, fo)
      ensures !tokenized ==> parseStack == [] && !parsed && err.Some? && err.value.AnaLex? && Tokenized(exp, tokens, Some(err.value.lex), fo)
      ensures tokenized ==> parseStack == Shunt(tokens).out && (parsed <==> Shunt(tokens).Parsed?)
      ensures tokenized && parsed ==> err == None
      ensures tokenized && !parsed ==> err == Some(RpnError.Parse(Shunt(tokens).error))
    {
      tokens, parseStack := [], [];
      tokenized, parsed := false, false;
      err, reseval := None, None;
      new;
      var rv := Parse(exp, fo);
      if rv.Err? {
        err := Some(rv.error);
      }
    }

    /**
     * `tokenize`: the token list is rebuilt from `exp` by repeated
     * `get_token` until no token is left or a lexical error occurs; the
     * outcome is recorded in `tokenized` and `err`.
     */
    method Tokenize(exp: string, fo: FloatOps) returns (r: Result<(), RpnError>)
      requires Valid()
      modifies this
      ensures Valid()
      ensures parseStack == old(parseStack) && parsed == old(parsed) && reseval == old(reseval)
      ensures r.Ok? <==> tokenized
      ensures r.Ok? ==> err == None && Tokenized(exp, tokens, None, fo)
      ensures r.Err? ==> err == Some(r.error) && r.error.AnaLex? && Tokenized(exp, tokens, Some(r.error.lex), fo)
    {
      var failure;
      tokens, failure := LexAll(exp, fo);
      if failure.None? {
        tokenized, err := true, None;
        return Ok(());
      }
      tokenized, err := false, Some(AnaLex(failure.value));
      r := Err(AnaLex(failure.value));
    }

    /**
     * `parse`: the parse stack is cleared; an expression not yet
     * tokenized is tokenized from `exp` first, and a lexical error ends
     * the parse there. An expression already tokenized is parsed from its
     * existing tokens and `exp` is ignored. The shunting-yard pass then
     * fills the parse stack, and its outcome is recorded in `parsed` and
     * `err`; after a failure the parse stack keeps what was emitted.
     */
    method Parse(exp: string, fo: FloatOps) returns (r: Result<(), RpnError>)
      requires Valid()
      modifies this
      ensures Valid() && reseval == old(reseval)
      ensures old(tokenized) ==> tokenized && tokens == old(tokens)
      ensures !old(tokenized) && tokenized ==> Tokenized(exp, tokens, None, fo)
      ensures !tokenized ==>
        parseStack == [] && parsed == old(parsed) && err.Some? && err.value.AnaLex? && r == Err(err.value) &&
        Tokenized(exp, tokens, Some(err.value.lex), fo)
      ensures tokenized ==> parseStack == Shunt(tokens).out && (parsed <==> Shunt(tokens).Parsed?)
      ensures tokenized && parsed ==> err == None && r == Ok(())
      ensures tokenized && !parsed ==> err == Some(RpnError.Parse(Shunt(tokens).error)) && r == Err(err.value)
    {
      parseStack := [];
      if !tokenized {
        var t := Tokenize(exp, fo);
        if t.Err? {
          return t;
        }
      }
      var d := ShuntAll(tokens);
      ShuntClean(tokens);
      RunnableOf(d.out);
      parseStack := d.out;
      if d.Failed? {
        parsed, err := false, Some(RpnError.Parse(d.error));
        return Err(RpnError.Parse(d.error));
      }
      parsed, err := true, None;
      r := Ok(());
    }

    /**
     * `eval`: refused with `NotParsed` when the expression is not parsed
     * and holds an error; otherwise the result and error are cleared, all
     * flags reset, and the parse stack evaluated as `EvalSpec` describes,
     * the results stored in their slots. The outcome is the error if one
     * was recorded, else the result.
     */
    method Eval(fo: FloatOps, now: I64) returns (r: Result<Option<EVar>, RpnError>)
      requires Valid()
      modifies this
      ensures Valid()
      ensures tokens == old(tokens) && tokenized == old(tokenized) && parsed == old(parsed)
      ensures !old(parsed) && old(err).Some? ==>
        r == Err(Exec(NotParsed)) && parseStack == old(parseStack) && err == old(err) && reseval == old(reseval)
      ensures old(parsed) || old(err).None? ==>
        var e := EvalSpec(old(parseStack), fo, now);
        parseStack == e.stack && reseval == e.reseval && err == e.err &&
        r == (if e.err.Some? then Err(e.err.value) else Ok(e.reseval))
    {
      if !parsed && err.Some? {
        return Err(Exec(NotParsed));
      }
      ghost var stack0 := parseStack;
      ghost var e := EvalSpec(stack0, fo, now);
      reseval, err := None, None;
      var n := |parseStack|;
      var istart := FirstEligible(parseStack, 0);
      if istart.None? {
        if n == 1 {
          var t := parseStack[0];
          if t.kind == Number || t.kind == Constant {
            reseval := Some(t.val);
          } else if t.kind == Function {
            var consumed := new bool[1](_ => false);
            assert consumed[..] == Cleared(1);
            var rv := Call(t.fnEval.value, 0, Vals(parseStack), consumed, 0, fo, now);
            if rv.Ok? {
              reseval := Some(rv.value);
            } else {
              err := Some(rv.error);
            }
          } else {
            err := Some(Exec(StartWrongToken));
          }
        } else {
          err := Some(Exec(WrongStackLen));
        }
      } else if istart == Some(0) {
        err := Some(Exec(StartOperandMissing));
      } else {
        parseStack, reseval, err := SweepLoop(parseStack, istart.value, fo, now);
      }
      if err.Some? {
        return Err(err.value);
      }
      r := Ok(reseval);
    }
  }

  /** The tokens of `exp`, read by `get_token` until none is left or a lexical error occurs. */
  method LexAll(exp: string, fo: FloatOps) returns (toks: seq<Token>, failure: Option<LexErr>)
    ensures Tokenized(exp, toks, failure, fo) && AllCallable(toks)
  {
    toks, failure := [], None;
    var pos: nat := 0;
    ghost var ends: seq<nat> := [0];
    while pos <= |exp|
      invariant pos <= |exp| && Lexed(exp, toks, ends, fo) && ends[|toks|] == pos
      invariant AllCallable(toks) && failure.None?
      decreases |exp| - pos
    {
      var rv, next := GetToken(exp, pos, fo);
      if rv.Err? {
        failure := Some(rv.error);
        assert Closes(exp, pos, failure, fo);
        return;
      }
      if rv.value.None? {
        assert Closes(exp, pos, failure, fo);
        return;
      }
      var t := rv.value.value;
      assert LexedAt(exp, t, pos, next, fo);
      LexemeCallable(t, Follow(exp, next), fo);
      LexedAppend(exp, toks, ends, t, next, fo);
      toks, ends := toks + [t], ends + [next];
      pos := next;
    }
  }
}
