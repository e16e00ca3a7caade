/**
 * The shunting-yard pass of `Expression::parse`: infix tokens in, postfix
 * (RPN) tokens out.
 *
 * Operands go straight to the output; operators, functions, opening
 * parentheses and separators wait on an operator stack. The pass decides
 * whether an operator is unary from the kind of the previous token, and on
 * a closing parenthesis stamps the function below it with the number of
 * parameters it was given.
 *
 * The pass is specified by `Shunt`, a fold of `Step` over the tokens
 * followed by `Drain`; the methods `PopHigherLoop`, `UnwindLoop`,
 * `ShuntToken` and `DrainLoop` are its loops, each proved against its
 * function, and the lemmas at the end state what a pass guarantees.
 */
module Parser {
  import opened Wrappers
  import opened Tokens

  /** The output so far, the operator stack (top last) and the kind of the previous token. */
  datatype Shunting = Shunting(out: seq<Token>, ops: seq<Token>, prev: TokKind)

  /** One token either lets the pass go on or stops it with an error and the output emitted so far. */
  datatype Move = Next(st: Shunting) | Stop(error: ParErr, out: seq<Token>)

  /** A whole pass: the postfix tokens, or an error and the output emitted before it. */
  datatype Parsed = Parsed(out: seq<Token>) | Failed(error: ParErr, out: seq<Token>)

  /** What unwinding the stack down to an opening parenthesis leaves. */
  datatype Unwound = Unwound(out: seq<Token>, ops: seq<Token>, nb: nat, found: bool)

  function Top(ops: seq<Token>): Token
    requires |ops| > 0
  {
    ops[|ops| - 1]
  }

  function Pop(ops: seq<Token>): seq<Token>
    requires |ops| > 0
  {
    ops[..|ops| - 1]
  }

  /** The number of separators in `ts`. */
  function CountSeps(ts: seq<Token>): nat {
    if ts == [] then 0 else CountSeps(Pop(ts)) + (if IsParamSep(Top(ts)) then 1 else 0)
  }

  /** The operands of `ts`, in order. */
  function OperandsOf(ts: seq<Token>): seq<Token> {
    if ts == [] then [] else OperandsOf(Pop(ts)) + (if IsOperand(Top(ts)) then [Top(ts)] else [])
  }

  /** A token that is evaluated carries a callback. */
  predicate Callable(t: Token) {
    (t.kind == TokKind.Operator || t.kind == Function) ==> t.fnEval.Some?
  }

  predicate AllCallable(ts: seq<Token>) {
    forall t :: t in ts ==> Callable(t)
  }

  predicate NoParen(ts: seq<Token>) {
    forall t :: t in ts ==> t.kind != OPar && t.kind != CPar
  }

  predicate NoOperand(ts: seq<Token>) {
    forall t :: t in ts ==> !IsOperand(t)
  }

  predicate NoOpar(ts: seq<Token>) {
    forall j :: 0 <= j < |ts| ==> !IsOpar(ts[j])
  }

  /** A token the pass may emit: no parenthesis, and a callback if it is evaluated. */
  predicate Emittable(t: Token) {
    t.kind != OPar && t.kind != CPar && Callable(t)
  }

  predicate AllEmittable(ts: seq<Token>) {
    forall t :: t in ts ==> Emittable(t)
  }

  /** A token that may wait on the operator stack: no operand, no closing parenthesis. */
  predicate Waiting(t: Token) {
    !IsOperand(t) && t.kind != CPar && Callable(t)
  }

  predicate AllWaiting(ts: seq<Token>) {
    forall t :: t in ts ==> Waiting(t)
  }

  /**
   * An operator is unary after nothing, a separator, an operator or an
   * opening parenthesis; when the operator stack is empty only "after
   * nothing" counts.
   */
  predicate UnaryAfter(prev: TokKind, emptyStack: bool) {
    if emptyStack then prev == Void
    else prev == Void || prev == Separator || prev == TokKind.Operator || prev == OPar
  }

  /**
   * Pop to the output every operator on top of the stack that binds more
   * tightly than `prec` or is unary, stopping at a separator or
   * parenthesis.
   */
  function PopHigher(out: seq<Token>, ops: seq<Token>, prec: nat): (seq<Token>, seq<Token>)
    decreases |ops|
  {
    if |ops| == 0 then (out, ops)
    else
      var top := Top(ops);
      if IsGenericSep(top) then (out, ops)
      else if (top.prec > 0 && top.prec > prec) || IsUnary(top) then PopHigher(out + [top], Pop(ops), prec)
      else (out, ops)
  }

  /**
   * Pop down to the topmost opening parenthesis, which is dropped:
   * separators are counted into `nb`, everything else is emitted.
   */
  function Unwind(out: seq<Token>, ops: seq<Token>, nb: nat): Unwound
    decreases |ops|
  {
    if |ops| == 0 then Unwound(out, ops, nb, false)
    else
      var top := Top(ops);
      if IsOpar(top) then Unwound(out, Pop(ops), nb, true)
      else if IsParamSep(top) then Unwind(out, Pop(ops), nb + 1)
      else Unwind(out + [top], Pop(ops), nb)
  }

  /** An operand is emitted at once, and a unary operator waiting on top of the stack right after it. */
  function EmitOperand(out: seq<Token>, ops: seq<Token>, tok: Token): (seq<Token>, seq<Token>) {
    if |ops| > 0 && IsUnary(Top(ops)) then (out + [tok, Top(ops)], Pop(ops))
    else (out + [tok], ops)
  }

  /**
   * An operator is pushed directly when the stack is empty, or its top is
   * an opening parenthesis, a function, or a binary operator of equal or
   * lower positive precedence; otherwise `PopHigher` runs first.
   */
  function PushOperator(out: seq<Token>, ops: seq<Token>, prev: TokKind, tok: Token): (seq<Token>, seq<Token>) {
    var t := SetUnary(tok, UnaryAfter(prev, |ops| == 0)).0;
    if |ops| == 0 then (out, [t])
    else
      var top := Top(ops);
      if top.kind == OPar || top.kind == Function || (top.prec > 0 && top.prec <= t.prec && !IsUnary(top)) then
        (out, ops + [t])
      else
        var p := PopHigher(out, ops, t.prec);
        (p.0, p.1 + [t])
  }

  /**
   * A closing parenthesis: the count starts at 0 right after `(` and at 1
   * otherwise; a function left on top after unwinding is emitted with the
   * count, unless its declared arity differs.
   */
  function ClosePar(st: Shunting): Move {
    var u := Unwind(st.out, st.ops, if st.prev == OPar then 0 else 1);
    if !u.found then Stop(MatchingPar, u.out)
    else if |u.ops| > 0 && IsFunction(Top(u.ops)) then
      var f := Top(u.ops).(nbParam := u.nb);
      if f.params.Some? && f.params.value != u.nb then Stop(ParamNb, u.out)
      else Next(Shunting(u.out + [f], Pop(u.ops), CPar))
    else Next(Shunting(u.out, u.ops, CPar))
  }

  /** The pass's reaction to one token. */
  function Step(st: Shunting, tok: Token): Move {
    if IsOperand(tok) then
      var e := EmitOperand(st.out, st.ops, tok);
      Next(Shunting(e.0, e.1, tok.kind))
    else if tok.kind == Function || tok.kind == OPar || tok.kind == Separator then
      Next(Shunting(st.out, st.ops + [tok], tok.kind))
    else if tok.kind == TokKind.Operator then
      var p := PushOperator(st.out, st.ops, st.prev, tok);
      Next(Shunting(p.0, p.1, tok.kind))
    else if tok.kind == CPar then ClosePar(st)
    else Next(st.(prev := tok.kind))
  }

  /** The final emptying of the operator stack; an opening parenthesis left there is unmatched. */
  function Drain(out: seq<Token>, ops: seq<Token>): Parsed
    decreases |ops|
  {
    if |ops| == 0 then Parsed(out)
    else if IsOpar(Top(ops)) then Failed(MatchingPar, out)
    else Drain(out + [Top(ops)], Pop(ops))
  }

  /** The pass from token `k` on, in state `st`. */
  function ShuntFrom(tokens: seq<Token>, k: nat, st: Shunting): Parsed
    requires k <= |tokens|
    decreases |tokens| - k
  {
    if k == |tokens| then Drain(st.out, st.ops)
    else
      match Step(st, tokens[k])
      case Stop(e, o) => Failed(e, o)
      case Next(st') => ShuntFrom(tokens, k + 1, st')
  }

  /** `parse` on a token sequence. */
  function Shunt(tokens: seq<Token>): Parsed {
    ShuntFrom(tokens, 0, Shunting([], [], Void))
  }

  // ---------------------------------------------------------------------
  // The loops of `parse`.
  // ---------------------------------------------------------------------

  method PopHigherLoop(out: seq<Token>, ops: seq<Token>, prec: nat) returns (out': seq<Token>, ops': seq<Token>)
    ensures (out', ops') == PopHigher(out, ops, prec)
  {
    out', ops' := out, ops;
    while |ops'| > 0
      invariant PopHigher(out', ops', prec) == PopHigher(out, ops, prec)
      decreases |ops'|
    {
      var top := ops'[|ops'| - 1];
      if IsGenericSep(top) {
        break;
      }
      if (top.prec > 0 && top.prec > prec) || IsUnary(top) {
        out', ops' := out' + [top], ops'[..|ops'| - 1];
      } else {
        break;
      }
    }
  }

  method UnwindLoop(out: seq<Token>, ops: seq<Token>, nb: nat) returns (r: Unwound)
    ensures r == Unwind(out, ops, nb)
  {
    var o, s, n := out, ops, nb;
    while |s| > 0
      invariant Unwind(o, s, n) == Unwind(out, ops, nb)
      decreases |s|
    {
      var top := s[|s| - 1];
      if IsOpar(top) {
        return Unwound(o, s[..|s| - 1], n, true);
      }
      if IsParamSep(top) {
        n := n + 1;
      } else {
        o := o + [top];
      }
      s := s[..|s| - 1];
    }
    r := Unwound(o, s, n, false);
  }

  /** One iteration of `parse`'s loop over the tokens. */
  method ShuntToken(st: Shunting, tok: Token) returns (m: Move)
    ensures m == Step(st, tok)
  {
    var out, ops := st.out, st.ops;
    if IsOperand(tok) {
      out := out + [tok];
      if |ops| > 0 && IsUnary(ops[|ops| - 1]) {
        out, ops := out + [ops[|ops| - 1]], ops[..|ops| - 1];
      }
    } else if tok.kind == Function || tok.kind == OPar || tok.kind == Separator {
      ops := ops + [tok];
    } else if tok.kind == TokKind.Operator {
      var t := SetUnary(tok, UnaryAfter(st.prev, |ops| == 0)).0;
      if |ops| > 0 {
        var top := ops[|ops| - 1];
        var direct := top.kind == OPar || top.kind == Function || (top.prec > 0 && top.prec <= t.prec && !IsUnary(top));
        if !direct {
          out, ops := PopHigherLoop(out, ops, t.prec);
        }
      }
      ops := ops + [t];
    } else if tok.kind == CPar {
      var u := UnwindLoop(out, ops, if st.prev == OPar then 0 else 1);
      if !u.found {
        return Stop(MatchingPar, u.out);
      }
      out, ops := u.out, u.ops;
      if |ops| > 0 && IsFunction(ops[|ops| - 1]) {
        var f := ops[|ops| - 1].(nbParam := u.nb);
        if f.params.Some? && f.params.value != u.nb {
          return Stop(ParamNb, out);
        }
        out, ops := out + [f], ops[..|ops| - 1];
      }
    }
    m := Next(Shunting(out, ops, tok.kind));
  }

  method DrainLoop(out: seq<Token>, ops: seq<Token>) returns (r: Parsed)
    ensures r == Drain(out, ops)
  {
    var o, s := out, ops;
    while |s| > 0
      invariant Drain(o, s) == Drain(out, ops)
      decreases |s|
    {
      var top := s[|s| - 1];
      if IsOpar(top) {
        return Failed(MatchingPar, o);
      }
      o, s := o + [top], s[..|s| - 1];
    }
    r := Parsed(o);
  }

  // ---------------------------------------------------------------------
  // What the pass guarantees.
  // ---------------------------------------------------------------------

  /** `r` extends `out` with tokens taken from `ops`, none of them an opening parenthesis. */
  ghost predicate Moved(out: seq<Token>, ops: seq<Token>, r: seq<Token>) {
    |r| >= |out| && r[..|out|] == out && forall t :: t in r[|out|..] ==> t in ops && !IsOpar(t)
  }

  /**
   * `PopHigher` moves tokens from the top of the stack to the output, only
   * operators binding more tightly than `prec` or unary ones, and stops at
   * a separator, a parenthesis or the first token that does not qualify.
   */
  lemma {:induction false} PopHigherMoves(out: seq<Token>, ops: seq<Token>, prec: nat)
    ensures var r := PopHigher(out, ops, prec);
      |r.1| <= |ops| && r.1 == ops[..|r.1|] && Moved(out, ops, r.0) && |r.0| - |out| == |ops| - |r.1| &&
      (forall t :: t in r.0[|out|..] ==> !IsGenericSep(t) && ((t.prec > 0 && t.prec > prec) || IsUnary(t))) &&
      (|r.1| > 0 ==> IsGenericSep(Top(r.1)) || !((Top(r.1).prec > 0 && Top(r.1).prec > prec) || IsUnary(Top(r.1))))
    decreases |ops|
  {
    if |ops| > 0 {
      var top := Top(ops);
      if !IsGenericSep(top) && ((top.prec > 0 && top.prec > prec) || IsUnary(top)) {
        PopHigherMoves(out + [top], Pop(ops), prec);
        var r := PopHigher(out + [top], Pop(ops), prec);
        assert r.0[|out|..] == [top] + r.0[|out| + 1..];
      }
    }
  }

  /** `Unwind` emits only tokens from the stack, and neither separators nor opening parentheses. */
  lemma {:induction false} UnwindMoves(out: seq<Token>, ops: seq<Token>, nb: nat)
    ensures var u := Unwind(out, ops, nb);
      Moved(out, ops, u.out) && (forall t :: t in u.out[|out|..] ==> !IsParamSep(t)) && |u.ops| <= |ops|
    decreases |ops|
  {
    if |ops| > 0 && !IsOpar(Top(ops)) {
      var top := Top(ops);
      var out' := if IsParamSep(top) then out else out + [top];
      UnwindMoves(out', Pop(ops), if IsParamSep(top) then nb + 1 else nb);
      var u := Unwind(out', Pop(ops), if IsParamSep(top) then nb + 1 else nb);
      assert u.out[|out|..] == out'[|out|..] + u.out[|out'|..];
    }
  }

  /** Removing a top that is no opening parenthesis does not change whether there is one. */
  lemma NoOparPop(ops: seq<Token>, k: nat)
    requires k < |ops| && !IsOpar(Top(ops))
    ensures NoOpar(ops[k..]) <==> NoOpar(Pop(ops)[k..])
  {
    assert forall j :: 0 <= j < |ops| - 1 - k ==> ops[k..][j] == Pop(ops)[k..][j];
  }

  /**
   * `Unwind` succeeds exactly when the stack holds an opening parenthesis,
   * and then removes the topmost one and everything above it.
   */
  lemma {:induction false} UnwindFound(out: seq<Token>, ops: seq<Token>, nb: nat)
    ensures var u := Unwind(out, ops, nb);
      (u.found <==> !NoOpar(ops)) && (!u.found ==> u.ops == []) &&
      (u.found ==> |u.ops| < |ops| && u.ops == ops[..|u.ops|] && IsOpar(ops[|u.ops|]) && NoOpar(ops[|u.ops| + 1..]))
    decreases |ops|
  {
    if |ops| > 0 && !IsOpar(Top(ops)) {
      var top := Top(ops);
      var out', nb' := if IsParamSep(top) then out else out + [top], if IsParamSep(top) then nb + 1 else nb;
      UnwindFound(out', Pop(ops), nb');
      var u := Unwind(out', Pop(ops), nb');
      NoOparPop(ops, 0);
      if u.found {
        NoOparPop(ops, |u.ops| + 1);
      }
    }
  }

  /** `Unwind` adds to the count the separators it meets above the opening parenthesis. */
  lemma {:induction false} UnwindCount(out: seq<Token>, ops: seq<Token>, nb: nat)
    ensures var u := Unwind(out, ops, nb);
      (u.found ==> |u.ops| < |ops|) && u.nb == nb + CountSeps(ops[(if u.found then |u.ops| + 1 else 0)..])
    decreases |ops|
  {
    UnwindFound(out, ops, nb);
    if |ops| > 0 && !IsOpar(Top(ops)) {
      var top := Top(ops);
      var out', nb' := if IsParamSep(top) then out else out + [top], if IsParamSep(top) then nb + 1 else nb;
      UnwindCount(out', Pop(ops), nb');
      UnwindFound(out', Pop(ops), nb');
      var u := Unwind(out', Pop(ops), nb');
      var k := if u.found then |u.ops| + 1 else 0;
      assert ops[k..] == Pop(ops)[k..] + [top];
      assert Pop(ops[k..]) == Pop(ops)[k..];
    } else if |ops| > 0 {
      assert ops[|ops|..] == [];
    } else {
      assert ops[0..] == [];
    }
  }

  /** `Drain` moves the whole stack to the output unless it meets an opening parenthesis. */
  lemma {:induction false} DrainFacts(out: seq<Token>, ops: seq<Token>)
    ensures var d := Drain(out, ops);
      Moved(out, ops, d.out) && (d.Parsed? <==> NoOpar(ops)) && (d.Failed? ==> d.error == MatchingPar) &&
      (d.Parsed? ==> |d.out| == |out| + |ops|)
    decreases |ops|
  {
    if |ops| > 0 && !IsOpar(Top(ops)) {
      var top := Top(ops);
      DrainFacts(out + [top], Pop(ops));
      var d := Drain(out + [top], Pop(ops));
      assert d.out[|out|..] == [top] + d.out[|out| + 1..];
      NoOparPop(ops, 0);
    } else if |ops| > 0 {
      assert !NoOpar(ops) by {
        assert IsOpar(ops[|ops| - 1]);
      }
    }
  }

  lemma {:induction false} OperandsAppend(a: seq<Token>, b: seq<Token>)
    ensures OperandsOf(a + b) == OperandsOf(a) + OperandsOf(b)
    decreases |b|
  {
    if b == [] {
      assert a + b == a;
    } else {
      assert Pop(a + b) == a + Pop(b);
      OperandsAppend(a, Pop(b));
    }
  }

  lemma {:induction false} NoOperandsOf(ts: seq<Token>)
    requires forall t :: t in ts ==> !IsOperand(t)
    ensures OperandsOf(ts) == []
    decreases |ts|
  {
    if ts != [] {
      assert forall t :: t in Pop(ts) ==> t in ts;
      NoOperandsOf(Pop(ts));
    }
  }

  /** Moving tokens from a waiting stack keeps the output emittable and its operands unchanged. */
  lemma MovedKeeps(out: seq<Token>, ops: seq<Token>, r: seq<Token>)
    requires Moved(out, ops, r) && AllEmittable(out) && AllWaiting(ops)
    ensures AllEmittable(r) && OperandsOf(r) == OperandsOf(out)
  {
    var extra := r[|out|..];
    assert r == out + extra;
    assert forall t :: t in extra ==> Waiting(t) && !IsOpar(t);
    NoOperandsOf(extra);
    OperandsAppend(out, extra);
  }

  /** What holds between tokens: everything emitted is emittable and everything stacked may wait. */
  ghost predicate Inv(st: Shunting) {
    AllEmittable(st.out) && AllWaiting(st.ops)
  }

  lemma OperandStepKeeps(st: Shunting, tok: Token)
    requires Inv(st) && IsOperand(tok) && Callable(tok)
    ensures Step(st, tok).Next? && Inv(Step(st, tok).st)
    ensures OperandsOf(Step(st, tok).st.out) == OperandsOf(st.out) + [tok]
    ensures NoOpar(st.ops) ==> NoOpar(Step(st, tok).st.ops)
  {
    var out1 := st.out + [tok];
    assert OperandsOf(out1) == OperandsOf(st.out) + [tok] by {
      assert Pop(out1) == st.out;
    }
    assert AllEmittable(out1);
    if |st.ops| > 0 && IsUnary(Top(st.ops)) {
      var top := Top(st.ops);
      assert st.out + [tok, top] == out1 + [top];
      assert Moved(out1, st.ops, out1 + [top]) by {
        assert (out1 + [top])[|out1|..] == [top];
      }
      MovedKeeps(out1, st.ops, out1 + [top]);
      assert forall j :: 0 <= j < |Pop(st.ops)| ==> Pop(st.ops)[j] == st.ops[j];
    }
  }

  /** Pushing a waiting token on a waiting stack keeps it waiting and free of new parentheses. */
  lemma PushWaiting(ops: seq<Token>, t: Token)
    requires AllWaiting(ops) && Waiting(t) && !IsOpar(t)
    ensures AllWaiting(ops + [t]) && (NoOpar(ops) ==> NoOpar(ops + [t]))
  {
    assert forall j :: 0 <= j < |ops| ==> (ops + [t])[j] == ops[j];
  }

  lemma OperatorStepKeeps(st: Shunting, tok: Token)
    requires Inv(st) && tok.kind == TokKind.Operator && Callable(tok)
    ensures Step(st, tok).Next? && Inv(Step(st, tok).st)
    ensures OperandsOf(Step(st, tok).st.out) == OperandsOf(st.out)
    ensures NoOpar(st.ops) ==> NoOpar(Step(st, tok).st.ops)
  {
    var t := SetUnary(tok, UnaryAfter(st.prev, |st.ops| == 0)).0;
    assert Waiting(t) && !IsOpar(t);
    var p := PushOperator(st.out, st.ops, st.prev, tok);
    if |st.ops| == 0 {
      assert p == (st.out, [t]);
      PushWaiting([], t);
      assert [] + [t] == [t];
    } else {
      var top := Top(st.ops);
      if top.kind == OPar || top.kind == Function || (top.prec > 0 && top.prec <= t.prec && !IsUnary(top)) {
        assert p == (st.out, st.ops + [t]);
        PushWaiting(st.ops, t);
      } else {
        var q := PopHigher(st.out, st.ops, t.prec);
        assert p == (q.0, q.1 + [t]);
        PopHigherMoves(st.out, st.ops, t.prec);
        MovedKeeps(st.out, st.ops, q.0);
        assert forall j :: 0 <= j < |q.1| ==> q.1[j] == st.ops[j];
        assert AllWaiting(q.1) && (NoOpar(st.ops) ==> NoOpar(q.1));
        PushWaiting(q.1, t);
      }
    }
  }

  lemma CloseStepKeeps(st: Shunting)
    requires Inv(st)
    ensures ClosePar(st).Next? ==> Inv(ClosePar(st).st) && OperandsOf(ClosePar(st).st.out) == OperandsOf(st.out)
    ensures ClosePar(st).Stop? ==> AllEmittable(ClosePar(st).out)
  {
    var nb := if st.prev == OPar then 0 else 1;
    var u := Unwind(st.out, st.ops, nb);
    UnwindMoves(st.out, st.ops, nb);
    UnwindFound(st.out, st.ops, nb);
    MovedKeeps(st.out, st.ops, u.out);
    if u.found {
      assert forall x :: x in u.ops ==> x in st.ops;
      if |u.ops| > 0 && IsFunction(Top(u.ops)) {
        var f := Top(u.ops).(nbParam := u.nb);
        assert Top(u.ops) in st.ops;
        assert Emittable(f);
        assert forall x :: x in Pop(u.ops) ==> x in u.ops;
        OperandsAppend(u.out, [f]);
        assert OperandsOf([f]) == [] by {
          assert Pop([f]) == [];
        }
      }
    }
  }

  lemma StepKeeps(st: Shunting, tok: Token)
    requires Inv(st) && Callable(tok)
    ensures Step(st, tok).Next? ==> Inv(Step(st, tok).st)
    ensures Step(st, tok).Next? ==>
      OperandsOf(Step(st, tok).st.out) == OperandsOf(st.out) + (if IsOperand(tok) then [tok] else [])
    ensures Step(st, tok).Stop? ==> AllEmittable(Step(st, tok).out)
    ensures tok.kind != CPar ==> Step(st, tok).Next?
    ensures tok.kind != CPar && tok.kind != OPar && NoOpar(st.ops) ==> NoOpar(Step(st, tok).st.ops)
  {
    if IsOperand(tok) {
      OperandStepKeeps(st, tok);
    } else if tok.kind == Function || tok.kind == OPar || tok.kind == Separator {
      assert forall j :: 0 <= j < |st.ops| ==> (st.ops + [tok])[j] == st.ops[j];
    } else if tok.kind == TokKind.Operator {
      OperatorStepKeeps(st, tok);
    } else if tok.kind == CPar {
      CloseStepKeeps(st);
    }
  }

  /** The output a move leaves: the new state's, or the output emitted before the error. */
  function Emitted(m: Move): seq<Token> {
    match m
    case Next(st) => st.out
    case Stop(_, out) => out
  }

  /**
   * One token only appends to the output, and never a separator: the
   * separators a function's arguments leave on the stack reach the output
   * only through the final `Drain`.
   */
  lemma StepEmitsNoSeparator(st: Shunting, tok: Token)
    ensures var o := Emitted(Step(st, tok));
      |o| >= |st.out| && o[..|st.out|] == st.out && forall t :: t in o[|st.out|..] ==> !IsParamSep(t)
  {
    var o := Emitted(Step(st, tok));
    if IsOperand(tok) {
      if |st.ops| > 0 && IsUnary(Top(st.ops)) {
        assert o[|st.out|..] == [tok, Top(st.ops)];
      } else {
        assert o[|st.out|..] == [tok];
      }
    } else if tok.kind == TokKind.Operator {
      var t := SetUnary(tok, UnaryAfter(st.prev, |st.ops| == 0)).0;
      PopHigherMoves(st.out, st.ops, t.prec);
    } else if tok.kind == CPar {
      var u := Unwind(st.out, st.ops, if st.prev == OPar then 0 else 1);
      UnwindMoves(st.out, st.ops, if st.prev == OPar then 0 else 1);
      if u.found && |u.ops| > 0 && IsFunction(Top(u.ops)) {
        var f := Top(u.ops).(nbParam := u.nb);
        if !(f.params.Some? && f.params.value != u.nb) {
          assert o == u.out + [f];
          assert o[|st.out|..] == u.out[|st.out|..] + [f];
        }
      }
    }
  }

  /** The pass from token `k` on never emits a parenthesis and keeps the operands in order. */
  lemma {:induction false} ShuntFromClean(tokens: seq<Token>, k: nat, st: Shunting)
    requires k <= |tokens| && Inv(st) && AllCallable(tokens)
    requires OperandsOf(st.out) == OperandsOf(tokens[..k])
    ensures AllEmittable(ShuntFrom(tokens, k, st).out)
    ensures ShuntFrom(tokens, k, st).Parsed? ==> OperandsOf(ShuntFrom(tokens, k, st).out) == OperandsOf(tokens)
    decreases |tokens| - k
  {
    if k == |tokens| {
      DrainFacts(st.out, st.ops);
      MovedKeeps(st.out, st.ops, Drain(st.out, st.ops).out);
      assert tokens[..k] == tokens;
    } else {
      assert tokens[k] in tokens;
      StepKeeps(st, tokens[k]);
      var m := Step(st, tokens[k]);
      if m.Next? {
        assert Pop(tokens[..k + 1]) == tokens[..k];
        ShuntFromClean(tokens, k + 1, m.st);
      }
    }
  }

  /**
   * On tokens whose operators and functions carry callbacks, `parse`
   * never emits a parenthesis, emits only tokens that carry callbacks, and
   * on success emits exactly the operands of the input, in input order.
   */
  lemma ShuntClean(tokens: seq<Token>)
    requires AllCallable(tokens)
    ensures NoParen(Shunt(tokens).out) && AllCallable(Shunt(tokens).out)
    ensures Shunt(tokens).Parsed? ==> OperandsOf(Shunt(tokens).out) == OperandsOf(tokens)
  {
    ShuntFromClean(tokens, 0, Shunting([], [], Void));
  }

  lemma {:induction false} ShuntFromWithoutParens(tokens: seq<Token>, k: nat, st: Shunting)
    requires k <= |tokens| && Inv(st) && AllCallable(tokens) && NoParen(tokens) && NoOpar(st.ops)
    ensures ShuntFrom(tokens, k, st).Parsed?
    decreases |tokens| - k
  {
    if k == |tokens| {
      DrainFacts(st.out, st.ops);
    } else {
      assert tokens[k] in tokens;
      StepKeeps(st, tokens[k]);
      ShuntFromWithoutParens(tokens, k + 1, Step(st, tokens[k]).st);
    }
  }

  /** Without parentheses in the input, `parse` cannot fail. */
  lemma ShuntWithoutParens(tokens: seq<Token>)
    requires AllCallable(tokens) && NoParen(tokens)
    ensures Shunt(tokens).Parsed?
  {
    ShuntFromWithoutParens(tokens, 0, Shunting([], [], Void));
  }

  /** A closing parenthesis fails as unmatched exactly when no opening parenthesis waits on the stack. */
  lemma CloseParUnmatched(st: Shunting)
    ensures (ClosePar(st).Stop? && ClosePar(st).error == MatchingPar) <==> NoOpar(st.ops)
  {
    UnwindFound(st.out, st.ops, if st.prev == OPar then 0 else 1);
  }

  /**
   * When the topmost opening parenthesis is at `k`, a closing parenthesis
   * removes it and everything above it. A function just below it is
   * emitted with its operand count: 0 right after `(`, otherwise one more
   * than the separators above the parenthesis; the pass fails instead
   * when the function declares a different arity.
   */
  lemma CloseParArity(st: Shunting, k: nat)
    requires k < |st.ops| && IsOpar(st.ops[k]) && NoOpar(st.ops[k + 1..])
    ensures var n := (if st.prev == OPar then 0 else 1) + CountSeps(st.ops[k + 1..]);
      var m := ClosePar(st);
      if k > 0 && IsFunction(st.ops[k - 1]) then
        if st.ops[k - 1].params.Some? && st.ops[k - 1].params.value != n then m.Stop? && m.error == ParamNb
        else m.Next? && m.st.ops == st.ops[..k - 1] && |m.st.out| > 0 && Top(m.st.out) == st.ops[k - 1].(nbParam := n)
      else m.Next? && m.st.ops == st.ops[..k]
  {
    var nb := if st.prev == OPar then 0 else 1;
    var u := Unwind(st.out, st.ops, nb);
    UnwindFound(st.out, st.ops, nb);
    UnwindCount(st.out, st.ops, nb);
    TopmostOpar(st.ops, |u.ops|, k);
  }

  /** There is one topmost opening parenthesis. */
  lemma TopmostOpar(ops: seq<Token>, i: nat, k: nat)
    requires i < |ops| && IsOpar(ops[i]) && NoOpar(ops[i + 1..])
    requires k < |ops| && IsOpar(ops[k]) && NoOpar(ops[k + 1..])
    ensures i == k
  {
  }

  /**
   * Binary operators of equal precedence group to the right: `a m b m c`
   * becomes `a b c m m`, each `m` marked binary with two operands.
   */
  lemma ShuntChain(a: Token, b: Token, c: Token, m: Token)
    requires IsOperand(a) && IsOperand(b) && IsOperand(c) && m.kind == TokKind.Operator && m.prec > 0
    ensures var m' := m.(unary := false, nbParam := 2);
      Shunt([a, m, b, m, c]) == Parsed([a, b, c, m', m'])
  {
    var ts := [a, m, b, m, c];
    var m' := m.(unary := false, nbParam := 2);
    var s1 := Shunting([a], [], a.kind);
    var s2 := Shunting([a], [m'], TokKind.Operator);
    var s3 := Shunting([a, b], [m'], b.kind);
    var s4 := Shunting([a, b], [m', m'], TokKind.Operator);
    var s5 := Shunting([a, b, c], [m', m'], c.kind);
    ChainOperands(a, b, c, m');
    ChainOperators(a, b, m);
    DrainTwo([a, b, c], m');
    assert [a, b, c] + [m', m'] == [a, b, c, m', m'];
    assert ShuntFrom(ts, 4, s4) == ShuntFrom(ts, 5, s5);
    assert ShuntFrom(ts, 3, s3) == ShuntFrom(ts, 4, s4);
    assert ShuntFrom(ts, 2, s2) == ShuntFrom(ts, 3, s3);
    assert ShuntFrom(ts, 1, s1) == ShuntFrom(ts, 2, s2);
  }

  lemma ChainOperands(a: Token, b: Token, c: Token, m': Token)
    requires IsOperand(a) && IsOperand(b) && IsOperand(c) && !IsUnary(m')
    ensures Step(Shunting([], [], Void), a) == Next(Shunting([a], [], a.kind))
    ensures Step(Shunting([a], [m'], TokKind.Operator), b) == Next(Shunting([a, b], [m'], b.kind))
    ensures Step(Shunting([a, b], [m', m'], TokKind.Operator), c) == Next(Shunting([a, b, c], [m', m'], c.kind))
  {
  }

  lemma ChainOperators(a: Token, b: Token, m: Token)
    requires IsOperand(a) && IsOperand(b) && m.kind == TokKind.Operator && m.prec > 0
    ensures var m' := m.(unary := false, nbParam := 2);
      Step(Shunting([a], [], a.kind), m) == Next(Shunting([a], [m'], TokKind.Operator)) &&
      Step(Shunting([a, b], [m'], b.kind), m) == Next(Shunting([a, b], [m', m'], TokKind.Operator))
  {
  }

  lemma DrainTwo(out: seq<Token>, t: Token)
    requires !IsOpar(t)
    ensures Drain(out, [t, t]) == Parsed(out + [t, t])
  {
    assert Pop([t, t]) == [t];
    assert Pop([t]) == [];
    assert Drain(out, [t, t]) == Drain(out + [t], [t]);
    assert Drain(out + [t], [t]) == Drain(out + [t] + [t], []);
    assert out + [t] + [t] == out + [t, t];
  }

  /** A leading `-` is unary: `m a` becomes `a m`, `m` marked unary with one operand. */
  lemma ShuntLeadingUnary(a: Token, m: Token)
    requires IsOperand(a) && m.kind == TokKind.Operator
    ensures Shunt([m, a]) == Parsed([a, m.(unary := true, nbParam := 1)])
  {
    var m' := m.(unary := true, nbParam := 1);
    var s1 := Shunting([], [m'], TokKind.Operator);
    var s2 := Shunting([a, m'], [], a.kind);
    assert Step(Shunting([], [], Void), m) == Next(s1);
    assert Step(s1, a) == Next(s2);
    assert ShuntFrom([m, a], 1, s1) == ShuntFrom([m, a], 2, s2);
  }

  /** A separator outside parentheses stays on the stack until the final flush emits it: `1,2` gives `1 2 ,`. */
  lemma ShuntTopLevelSeparator(a: Token, sep: Token, b: Token)
    requires IsOperand(a) && IsOperand(b) && sep.kind == Separator
    ensures Shunt([a, sep, b]) == Parsed([a, b, sep])
  {
    var s1 := Shunting([a], [], a.kind);
    var s2 := Shunting([a], [sep], Separator);
    var s3 := Shunting([a, b], [sep], b.kind);
    assert Step(Shunting([], [], Void), a) == Next(s1);
    assert Step(s1, sep) == Next(s2);
    assert Step(s2, b) == Next(s3);
    assert ShuntFrom([a, sep, b], 1, s1) == ShuntFrom([a, sep, b], 3, s3);
    assert Drain([a, b], [sep]) == Drain([a, b, sep], []);
  }

  /** The loop of `parse` over the tokens, then the emptying of the operator stack. */
  method ShuntAll(tokens: seq<Token>) returns (p: Parsed)
    ensures p == Shunt(tokens)
  {
    var st := Shunting([], [], Void);
    var k := 0;
    while k < |tokens|
      invariant k <= |tokens| && ShuntFrom(tokens, k, st) == Shunt(tokens)
    {
      var m := ShuntToken(st, tokens[k]);
      if m.Stop? {
        return Failed(m.error, m.out);
      }
      st, k := m.st, k + 1;
    }
    p := DrainLoop(st.out, st.ops);
  }
}
