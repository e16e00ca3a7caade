/**
 * The evaluation of a postfix (RPN) token stack, `Expression::eval`.
 *
 * The slots that run a callback are the operators and the functions given
 * at least one parameter. They run from the bottom of the stack up; each
 * one claims its operands from the unclaimed slots below it and leaves its
 * result in its own slot, where a later slot finds it as an operand. A
 * stack without such a slot must be a single operand or a single
 * parameterless function.
 *
 * `SweepFrom` is that sweep on the slot values, `EvalSpec` the whole
 * evaluation; the method `Engine.Expression.Eval` runs it on the parse
 * stack.
 */
module Evaluator {
  import opened Wrappers
  import opened Int64
  import opened Variant
  import opened Tokens
  import opened Operands
  import opened Parser

  /** A slot that runs its callback during the sweep. */
  predicate Eligible(t: Token) {
    t.kind == TokKind.Operator || (t.kind == Function && t.nbParam > 0)
  }

  /** Every operator and function of the stack carries a callback. */
  predicate Runnable(stack: seq<Token>) {
    forall j :: 0 <= j < |stack| ==> Callable(stack[j])
  }

  lemma RunnableOf(stack: seq<Token>)
    requires AllCallable(stack)
    ensures Runnable(stack)
  {
    assert forall j :: 0 <= j < |stack| ==> stack[j] in stack;
  }

  /** The values held by the slots. */
  function Vals(stack: seq<Token>): (v: seq<EVar>)
    ensures |v| == |stack| && forall j :: 0 <= j < |stack| ==> v[j] == stack[j].val
  {
    seq(|stack|, j requires 0 <= j < |stack| => stack[j].val)
  }

  /** The stack with its slot values replaced by `vals`. */
  function Store(stack: seq<Token>, vals: seq<EVar>): (r: seq<Token>)
    requires |vals| == |stack|
    ensures |r| == |stack| && forall j :: 0 <= j < |stack| ==> r[j] == stack[j].(val := vals[j])
  {
    seq(|stack|, j requires 0 <= j < |stack| => stack[j].(val := vals[j]))
  }

  /** No flag set: the state the evaluation resets every slot to. */
  function Cleared(n: nat): (flags: seq<bool>)
    ensures |flags| == n && forall j :: 0 <= j < n ==> !flags[j]
  {
    seq(n, _ => false)
  }

  /** The first eligible slot at or above `k`. */
  function FirstEligible(stack: seq<Token>, k: nat): (r: Option<nat>)
    requires k <= |stack|
    ensures r.Some? ==> (k <= r.value < |stack| && Eligible(stack[r.value])
      && forall j :: k <= j < r.value ==> !Eligible(stack[j]))
    ensures r.None? ==> forall j :: k <= j < |stack| ==> !Eligible(stack[j])
    decreases |stack| - k
  {
    if k == |stack| then None
    else if Eligible(stack[k]) then Some(k)
    else FirstEligible(stack, k + 1)
  }

  /** The last eligible slot below `n`. */
  function LastEligible(stack: seq<Token>, n: nat): (r: Option<nat>)
    requires n <= |stack|
    ensures r.Some? ==> (r.value < n && Eligible(stack[r.value])
      && forall j :: r.value < j < n ==> !Eligible(stack[j]))
    ensures r.None? ==> forall j :: 0 <= j < n ==> !Eligible(stack[j])
  {
    if n == 0 then None
    else if Eligible(stack[n - 1]) then Some(n - 1)
    else LastEligible(stack, n - 1)
  }

  /**
   * Where a sweep ends: the slot values, the claim flags, the last result,
   * the error if a callback failed, and the slot it stopped at (the failing
   * slot, or the stack height).
   */
  datatype Sweep = Sweep(vals: seq<EVar>, flags: seq<bool>, reseval: Option<EVar>, err: Option<RpnError>, stop: nat)

  /**
   * The sweep from slot `k` up: an eligible slot runs its callback on the
   * current values; a failure ends the sweep, a success is stored in the
   * slot and becomes the last result.
   */
  function SweepFrom(stack: seq<Token>, vals: seq<EVar>, flags: seq<bool>, k: nat, reseval: Option<EVar>, fo: FloatOps, now: I64): (w: Sweep)
    requires |vals| == |stack| && |flags| == |stack| && k <= |stack| && Runnable(stack)
    ensures |w.vals| == |stack| && |w.flags| == |stack|
    decreases |stack| - k
  {
    if k == |stack| then Sweep(vals, flags, reseval, None, k)
    else if !Eligible(stack[k]) then SweepFrom(stack, vals, flags, k + 1, reseval, fo, now)
    else
      var s := Spec(stack[k].fnEval.value, k, vals, flags, stack[k].nbParam, fo, now);
      SpecFramed(stack[k].fnEval.value, k, vals, flags, stack[k].nbParam, fo, now);
      match s.res
      case Err(e) => Sweep(vals, s.flags, reseval, Some(e), k)
      case Ok(v) => SweepFrom(stack, vals[k := v], s.flags, k + 1, Some(v), fo, now)
  }

  /** The stack, result and error an evaluation leaves. */
  datatype Evaluated = Evaluated(stack: seq<Token>, reseval: Option<EVar>, err: Option<RpnError>)

  /**
   * `eval` on a parse stack, after its flags are reset. Without an eligible
   * slot the stack must be one number or constant (its value is the
   * result) or one parameterless function (run at slot 0); any other lone
   * token is `StartWrongToken` and any other height `WrongStackLen`. An
   * eligible bottom slot has no operands: `StartOperandMissing`.
   */
  function EvalSpec(stack: seq<Token>, fo: FloatOps, now: I64): Evaluated
    requires Runnable(stack)
  {
    match FirstEligible(stack, 0)
    case None =>
      if |stack| == 1 then
        var t := stack[0];
        if t.kind == Number || t.kind == Constant then Evaluated(stack, Some(t.val), None)
        else if t.kind == Function then
          var s := Spec(t.fnEval.value, 0, Vals(stack), Cleared(1), 0, fo, now);
          match s.res
          case Ok(v) => Evaluated(stack, Some(v), None)
          case Err(e) => Evaluated(stack, None, Some(e))
        else Evaluated(stack, None, Some(Exec(StartWrongToken)))
      else Evaluated(stack, None, Some(Exec(WrongStackLen)))
    case Some(i) =>
      if i == 0 then Evaluated(stack, None, Some(Exec(StartOperandMissing)))
      else
        var w := SweepFrom(stack, Vals(stack), Cleared(|stack|), i, None, fo, now);
        Evaluated(Store(stack, w.vals), w.reseval, w.err)
  }

  // ---------------------------------------------------------------------
  // What a sweep guarantees.
  // ---------------------------------------------------------------------

  /**
   * Running the eligible slot `i`: a failure ends the sweep there, a
   * success stores the result and the sweep resumes at the next eligible
   * slot, or ends at the top.
   */
  lemma SweepAdvance(stack: seq<Token>, vals: seq<EVar>, flags: seq<bool>, i: nat, reseval: Option<EVar>, fo: FloatOps, now: I64)
    requires |vals| == |stack| && |flags| == |stack| && i < |stack| && Runnable(stack) && Eligible(stack[i])
    ensures var s := Spec(stack[i].fnEval.value, i, vals, flags, stack[i].nbParam, fo, now);
      |s.flags| == |stack| &&
      match s.res
      case Err(e) => SweepFrom(stack, vals, flags, i, reseval, fo, now) == Sweep(vals, s.flags, reseval, Some(e), i)
      case Ok(v) =>
        var next := FirstEligible(stack, i + 1);
        var k := if next.Some? then next.value else |stack|;
        SweepFrom(stack, vals, flags, i, reseval, fo, now) == SweepFrom(stack, vals[i := v], s.flags, k, Some(v), fo, now) &&
        (next.None? ==> SweepFrom(stack, vals[i := v], s.flags, k, Some(v), fo, now) == Sweep(vals[i := v], s.flags, Some(v), None, |stack|))
  {
    var s := Spec(stack[i].fnEval.value, i, vals, flags, stack[i].nbParam, fo, now);
    SpecFramed(stack[i].fnEval.value, i, vals, flags, stack[i].nbParam, fo, now);
    if s.res.Ok? {
      var next := FirstEligible(stack, i + 1);
      SweepSkip(stack, vals[i := s.res.value], s.flags, i + 1, if next.Some? then next.value else |stack|, Some(s.res.value), fo, now);
    }
  }

  /** Ineligible slots are skipped. */
  lemma {:induction false} SweepSkip(stack: seq<Token>, vals: seq<EVar>, flags: seq<bool>, k: nat, k': nat, reseval: Option<EVar>, fo: FloatOps, now: I64)
    requires |vals| == |stack| && |flags| == |stack| && k <= k' <= |stack| && Runnable(stack)
    requires forall j :: k <= j < k' ==> !Eligible(stack[j])
    ensures SweepFrom(stack, vals, flags, k, reseval, fo, now) == SweepFrom(stack, vals, flags, k', reseval, fo, now)
    decreases k' - k
  {
    if k < k' {
      SweepSkip(stack, vals, flags, k + 1, k', reseval, fo, now);
    }
  }

  /**
   * A sweep from `k` stops at or above `k`; it changes only the values of
   * the eligible slots it ran, from `k` up to the slot it stopped at, and
   * it stops before the top exactly when a callback failed, at an eligible
   * slot.
   */
  lemma {:induction false} SweepShape(stack: seq<Token>, vals: seq<EVar>, flags: seq<bool>, k: nat, reseval: Option<EVar>, fo: FloatOps, now: I64)
    requires |vals| == |stack| && |flags| == |stack| && k <= |stack| && Runnable(stack)
    ensures var w := SweepFrom(stack, vals, flags, k, reseval, fo, now);
      k <= w.stop <= |stack| && |w.vals| == |stack| && |w.flags| == |stack| &&
      (w.err.None? <==> w.stop == |stack|) &&
      (w.err.Some? ==> Eligible(stack[w.stop])) &&
      forall j :: 0 <= j < |stack| && (j < k || j >= w.stop || !Eligible(stack[j])) ==> w.vals[j] == vals[j]
    decreases |stack| - k
  {
    if k < |stack| {
      if !Eligible(stack[k]) {
        SweepShape(stack, vals, flags, k + 1, reseval, fo, now);
      } else {
        var s := Spec(stack[k].fnEval.value, k, vals, flags, stack[k].nbParam, fo, now);
        SpecFramed(stack[k].fnEval.value, k, vals, flags, stack[k].nbParam, fo, now);
        if s.res.Ok? {
          SweepShape(stack, vals[k := s.res.value], s.flags, k + 1, Some(s.res.value), fo, now);
        }
      }
    }
  }

  /**
   * A sweep that completes leaves as its result the value it stored in the
   * last eligible slot (the top of the postfix expression), or the result
   * it started with when no slot from `k` up is eligible.
   */
  lemma {:induction false} SweepLast(stack: seq<Token>, vals: seq<EVar>, flags: seq<bool>, k: nat, reseval: Option<EVar>, fo: FloatOps, now: I64)
    requires |vals| == |stack| && |flags| == |stack| && k <= |stack| && Runnable(stack)
    ensures var w := SweepFrom(stack, vals, flags, k, reseval, fo, now);
      w.err.None? ==> (|w.vals| == |stack| &&
        match LastEligible(stack, |stack|)
        case Some(l) => w.reseval == (if l >= k then Some(w.vals[l]) else reseval)
        case None => w.reseval == reseval)
    decreases |stack| - k
  {
    SweepShape(stack, vals, flags, k, reseval, fo, now);
    if k < |stack| {
      if !Eligible(stack[k]) {
        SweepLast(stack, vals, flags, k + 1, reseval, fo, now);
      } else {
        var s := Spec(stack[k].fnEval.value, k, vals, flags, stack[k].nbParam, fo, now);
        SpecFramed(stack[k].fnEval.value, k, vals, flags, stack[k].nbParam, fo, now);
        if s.res.Ok? {
          var v := s.res.value;
          SweepLast(stack, vals[k := v], s.flags, k + 1, Some(v), fo, now);
          SweepShape(stack, vals[k := v], s.flags, k + 1, Some(v), fo, now);
        }
      }
    }
  }

  /**
   * `b` differs from `a` at most in the values of eligible slots at or
   * above `k`.
   */
  predicate Agree(stack: seq<Token>, a: seq<EVar>, b: seq<EVar>, k: nat) {
    |a| == |stack| && |b| == |stack| &&
    forall j :: 0 <= j < |stack| ==> a[j] == b[j] || (j >= k && Eligible(stack[j]))
  }

  /**
   * The values an eligible slot holds before it runs are never read:
   * sweeping values that differ only there claims the same operands,
   * computes the same results and stops at the same slot.
   */
  lemma {:induction false} SweepAgain(stack: seq<Token>, a: seq<EVar>, b: seq<EVar>, flags: seq<bool>, k: nat, reseval: Option<EVar>, fo: FloatOps, now: I64)
    requires |flags| == |stack| && k <= |stack| && Runnable(stack) && Agree(stack, a, b, k)
    ensures var wa := SweepFrom(stack, a, flags, k, reseval, fo, now);
      var wb := SweepFrom(stack, b, flags, k, reseval, fo, now);
      wb.flags == wa.flags && wb.reseval == wa.reseval && wb.err == wa.err && wb.stop == wa.stop
    decreases |stack| - k
  {
    if k < |stack| {
      if !Eligible(stack[k]) {
        SweepAgain(stack, a, b, flags, k + 1, reseval, fo, now);
      } else {
        var cb, nb := stack[k].fnEval.value, stack[k].nbParam;
        SpecLocal(cb, k, a, b, flags, nb, fo, now);
        var s := Spec(cb, k, a, flags, nb, fo, now);
        if s.res.Ok? {
          var v := s.res.value;
          SweepAgain(stack, a[k := v], b[k := v], s.flags, k + 1, Some(v), fo, now);
        }
      }
    }
  }

  /**
   * ... and stores the same values: those of the slots it ran, and the
   * unread ones above the slot it stopped at.
   */
  lemma {:induction false} SweepAgainVals(stack: seq<Token>, a: seq<EVar>, b: seq<EVar>, flags: seq<bool>, k: nat, reseval: Option<EVar>, fo: FloatOps, now: I64)
    requires |flags| == |stack| && k <= |stack| && Runnable(stack) && Agree(stack, a, b, k)
    ensures var wa := SweepFrom(stack, a, flags, k, reseval, fo, now);
      var wb := SweepFrom(stack, b, flags, k, reseval, fo, now);
      forall j :: 0 <= j < |stack| ==> wb.vals[j] == (if j < wa.stop then wa.vals[j] else b[j])
    decreases |stack| - k
  {
    if k < |stack| {
      if !Eligible(stack[k]) {
        SweepAgainVals(stack, a, b, flags, k + 1, reseval, fo, now);
      } else {
        var cb, nb := stack[k].fnEval.value, stack[k].nbParam;
        SpecLocal(cb, k, a, b, flags, nb, fo, now);
        var s := Spec(cb, k, a, flags, nb, fo, now);
        SpecFramed(cb, k, a, flags, nb, fo, now);
        if s.res.Ok? {
          var v := s.res.value;
          SweepAgainVals(stack, a[k := v], b[k := v], s.flags, k + 1, Some(v), fo, now);
          SweepShape(stack, a[k := v], s.flags, k + 1, Some(v), fo, now);
        }
      }
    }
  }

  // ---------------------------------------------------------------------
  // What an evaluation guarantees.
  // ---------------------------------------------------------------------

  /**
   * Evaluation changes nothing in the stack but the values of operator and
   * function slots, and those only when some slot is eligible.
   */
  lemma EvalShape(stack: seq<Token>, fo: FloatOps, now: I64)
    requires Runnable(stack)
    ensures var e := EvalSpec(stack, fo, now);
      |e.stack| == |stack| &&
      forall j :: 0 <= j < |stack| ==> (e.stack[j] == stack[j].(val := e.stack[j].val) &&
        (!Eligible(stack[j]) ==> e.stack[j] == stack[j]))
  {
    var first := FirstEligible(stack, 0);
    if first.Some? && first.value > 0 {
      SweepShape(stack, Vals(stack), Cleared(|stack|), first.value, None, fo, now);
    }
  }

  /**
   * A successful evaluation of a stack with an eligible slot yields the
   * value stored in the last one, the top of the postfix expression.
   */
  lemma EvalLast(stack: seq<Token>, fo: FloatOps, now: I64, l: nat)
    requires Runnable(stack) && LastEligible(stack, |stack|) == Some(l)
    ensures var e := EvalSpec(stack, fo, now);
      e.err.None? ==> |e.stack| == |stack| && e.reseval == Some(e.stack[l].val)
  {
    var first := FirstEligible(stack, 0);
    assert first.Some? && first.value <= l;
    if first.value > 0 {
      SweepLast(stack, Vals(stack), Cleared(|stack|), first.value, None, fo, now);
    }
  }

  /**
   * The start of `eval`: an eligible bottom slot has nothing to read; with
   * no eligible slot, a stack of any height but one is refused, a lone
   * number or constant is the result, and a lone token of any other kind
   * but a function is refused. None of these touches the stack.
   */
  lemma EvalStart(stack: seq<Token>, fo: FloatOps, now: I64)
    requires Runnable(stack)
    ensures var e := EvalSpec(stack, fo, now);
      |stack| > 0 && Eligible(stack[0]) ==> e == Evaluated(stack, None, Some(Exec(StartOperandMissing)))
    ensures var e := EvalSpec(stack, fo, now);
      (forall j :: 0 <= j < |stack| ==> !Eligible(stack[j])) ==>
        (|stack| != 1 ==> e == Evaluated(stack, None, Some(Exec(WrongStackLen)))) &&
        (|stack| == 1 && (stack[0].kind == Number || stack[0].kind == Constant) ==>
           e == Evaluated(stack, Some(stack[0].val), None)) &&
        (|stack| == 1 && !(stack[0].kind == Number || stack[0].kind == Constant || stack[0].kind == Function) ==>
           e == Evaluated(stack, None, Some(Exec(StartWrongToken))))
  {
    if |stack| > 0 && Eligible(stack[0]) {
      assert FirstEligible(stack, 0) == Some(0);
    }
  }

  /** An evaluation that records no error always has a result. */
  lemma EvalResult(stack: seq<Token>, fo: FloatOps, now: I64)
    requires Runnable(stack)
    ensures EvalSpec(stack, fo, now).err.None? ==> EvalSpec(stack, fo, now).reseval.Some?
  {
    var first := FirstEligible(stack, 0);
    if first.Some? {
      var l := LastEligible(stack, |stack|);
      assert l.Some?;
      EvalLast(stack, fo, now, l.value);
    }
  }

  /**
   * Evaluating a second time gives the same stack, result and error: the
   * values an evaluation leaves in operator slots are overwritten before
   * anything reads them.
   */
  lemma EvalTwice(stack: seq<Token>, fo: FloatOps, now: I64)
    requires Runnable(stack)
    ensures Runnable(EvalSpec(stack, fo, now).stack)
    ensures EvalSpec(EvalSpec(stack, fo, now).stack, fo, now) == EvalSpec(stack, fo, now)
  {
    var e := EvalSpec(stack, fo, now);
    EvalShape(stack, fo, now);
    var stack' := e.stack;
    assert forall j :: 0 <= j < |stack| ==> Eligible(stack'[j]) == Eligible(stack[j]);
    FirstAgree(stack, stack', 0);
    var first := FirstEligible(stack, 0);
    if first.Some? && first.value > 0 {
      var i := first.value;
      var a := Vals(stack);
      var w := SweepFrom(stack, a, Cleared(|stack|), i, None, fo, now);
      SweepShape(stack, a, Cleared(|stack|), i, None, fo, now);
      assert Agree(stack, a, w.vals, i);
      SweepAgain(stack, a, w.vals, Cleared(|stack|), i, None, fo, now);
      SweepAgainVals(stack, a, w.vals, Cleared(|stack|), i, None, fo, now);
      var w2 := SweepFrom(stack, w.vals, Cleared(|stack|), i, None, fo, now);
      assert w2.vals == w.vals;
      assert Vals(stack') == w.vals;
      SweepSame(stack, stack', w.vals, Cleared(|stack|), i, None, fo, now);
      assert Store(stack', w.vals) == stack';
    }
  }

  /** Two stacks that differ only in slot values have the same eligible slots. */
  lemma FirstAgree(stack: seq<Token>, stack': seq<Token>, k: nat)
    requires |stack'| == |stack| && k <= |stack|
    requires forall j :: 0 <= j < |stack| ==> stack'[j] == stack[j].(val := stack'[j].val)
    ensures FirstEligible(stack', k) == FirstEligible(stack, k)
    decreases |stack| - k
  {
    if k < |stack| {
      FirstAgree(stack, stack', k + 1);
    }
  }

  /** A sweep reads the slot values only through `vals`. */
  lemma {:induction false} SweepSame(stack: seq<Token>, stack': seq<Token>, vals: seq<EVar>, flags: seq<bool>, k: nat, reseval: Option<EVar>, fo: FloatOps, now: I64)
    requires |vals| == |stack| && |flags| == |stack| && k <= |stack| && Runnable(stack)
    requires |stack'| == |stack| && forall j :: 0 <= j < |stack| ==> stack'[j] == stack[j].(val := stack'[j].val)
    ensures Runnable(stack')
    ensures SweepFrom(stack', vals, flags, k, reseval, fo, now) == SweepFrom(stack, vals, flags, k, reseval, fo, now)
    decreases |stack| - k
  {
    assert forall j :: 0 <= j < |stack| ==> Callable(stack'[j]) == Callable(stack[j]);
    if k < |stack| {
      if !Eligible(stack[k]) {
        SweepSame(stack, stack', vals, flags, k + 1, reseval, fo, now);
      } else {
        var s := Spec(stack[k].fnEval.value, k, vals, flags, stack[k].nbParam, fo, now);
        SpecFramed(stack[k].fnEval.value, k, vals, flags, stack[k].nbParam, fo, now);
        if s.res.Ok? {
          SweepSame(stack, stack', vals[k := s.res.value], s.flags, k + 1, Some(s.res.value), fo, now);
        }
      }
    }
  }

  // ---------------------------------------------------------------------
  // The loop of `eval`.
  // ---------------------------------------------------------------------

  /**
   * The first slot not yet executed that runs a callback (an operator, or
   * a function given parameters).
   */
  method FindPending(stack: seq<Token>, done: seq<bool>) returns (r: Option<nat>)
    requires |done| == |stack|
    ensures r.Some? ==> r.value < |stack| && !done[r.value] && Eligible(stack[r.value])
    ensures r.Some? ==> forall j :: 0 <= j < r.value ==> done[j] || !Eligible(stack[j])
    ensures r.None? ==> forall j :: 0 <= j < |stack| ==> done[j] || !Eligible(stack[j])
  {
    var j := 0;
    while j < |stack|
      invariant j <= |stack| && forall k :: 0 <= k < j ==> done[k] || !Eligible(stack[k])
    {
      if !done[j] && Eligible(stack[j]) {
        return Some(j);
      }
      j := j + 1;
    }
    r := None;
  }

  /**
   * The `while let` loop of `eval`, from the first eligible slot `istart`:
   * run the pending slot, store its result in it, and look for the next
   * pending one, until none is left or a callback fails.
   */
  method SweepLoop(stack: seq<Token>, istart: nat, fo: FloatOps, now: I64)
    returns (stack': seq<Token>, reseval: Option<EVar>, err: Option<RpnError>)
    requires Runnable(stack) && FirstEligible(stack, 0) == Some(istart)
    ensures var w := SweepFrom(stack, Vals(stack), Cleared(|stack|), istart, None, fo, now);
      stack' == Store(stack, w.vals) && reseval == w.reseval && err == w.err
  {
    var n := |stack|;
    var consumed := new bool[n](_ => false);
    var done := Cleared(n);
    ghost var w := SweepFrom(stack, Vals(stack), consumed[..], istart, None, fo, now);
    assert consumed[..] == Cleared(n);
    ghost var vals := Vals(stack);
    ValsStore(stack, vals);
    stack', reseval, err := stack, None, None;
    var pending: Option<nat> := Some(istart);
    while pending.Some?
      invariant |vals| == n && stack' == Store(stack, vals) && err == None
      invariant pending.Some? ==> Pending(stack, vals, consumed[..], done, pending.value, reseval, w, fo, now)
      invariant pending.None? ==> vals == w.vals && reseval == w.reseval && w.err == None
      decreases if pending.Some? then n - pending.value else 0
    {
      var e;
      stack', vals, done, reseval, e, pending := SweepStep(stack, stack', vals, consumed, done, pending.value, reseval, w, fo, now);
      if e.Some? {
        err := e;
        break;
      }
    }
  }

  /** The loop is about to run slot `i`, and the sweep from there ends in `w`. */
  ghost predicate Pending(stack: seq<Token>, vals: seq<EVar>, flags: seq<bool>, done: seq<bool>, i: nat,
                          reseval: Option<EVar>, w: Sweep, fo: FloatOps, now: I64)
    requires Runnable(stack) && |vals| == |stack| && |flags| == |stack|
  {
    i < |stack| && Eligible(stack[i]) && SweepFrom(stack, vals, flags, i, reseval, fo, now) == w && DoneBelow(stack, done, i)
  }

  /**
   * One iteration of the loop: slot `i` runs, its result is stored and
   * becomes the last result, and the next slot that is eligible and not
   * yet done is looked up.
   */
  method SweepStep(stack: seq<Token>, current: seq<Token>, ghost vals: seq<EVar>, consumed: array<bool>, done: seq<bool>,
                   i: nat, reseval: Option<EVar>, ghost w: Sweep, fo: FloatOps, now: I64)
    returns (current': seq<Token>, ghost vals': seq<EVar>, done': seq<bool>, reseval': Option<EVar>,
             err: Option<RpnError>, pending: Option<nat>)
    requires Runnable(stack) && |vals| == |stack| && current == Store(stack, vals) && consumed.Length == |stack|
    requires Pending(stack, vals, consumed[..], done, i, reseval, w, fo, now)
    modifies consumed
    ensures |vals'| == |stack| && current' == Store(stack, vals')
    ensures err.Some? ==> vals' == w.vals && reseval' == w.reseval && err == w.err
    ensures err.None? && pending.Some? ==>
      i < pending.value && Pending(stack, vals', consumed[..], done', pending.value, reseval', w, fo, now)
    ensures err.None? && pending.None? ==> vals' == w.vals && reseval' == w.reseval && w.err == None
  {
    var rv := RunSlot(stack, current, vals, consumed, i, reseval, w, fo, now);
    if rv.Err? {
      return current, vals, done, reseval, Some(rv.error), None;
    }
    reseval' := Some(rv.value);
    DoneMark(stack, done, i);
    done' := done[i := true];
    StoreUpdate(stack, vals, i, rv.value);
    current' := current[i := current[i].(val := rv.value)];
    vals' := vals[i := rv.value];
    err := None;
    pending := FindPending(stack, done');
    PendingIsNext(stack, done', i, pending);
  }

  /**
   * One iteration of the loop: the callback of slot `i` runs on the
   * current values and flags, which is one step of the sweep.
   */
  method RunSlot(stack: seq<Token>, current: seq<Token>, ghost vals: seq<EVar>, consumed: array<bool>, i: nat,
                 ghost reseval: Option<EVar>, ghost w: Sweep, fo: FloatOps, now: I64)
    returns (rv: Result<EVar, RpnError>)
    requires Runnable(stack) && |vals| == |stack| && current == Store(stack, vals)
    requires consumed.Length == |stack| && i < |stack| && Eligible(stack[i])
    requires SweepFrom(stack, vals, consumed[..], i, reseval, fo, now) == w
    modifies consumed
    ensures rv.Err? ==> w.vals == vals && w.reseval == reseval && w.err == Some(rv.error)
    ensures rv.Ok? && FirstEligible(stack, i + 1).Some? ==>
      SweepFrom(stack, vals[i := rv.value], consumed[..], FirstEligible(stack, i + 1).value, Some(rv.value), fo, now) == w
    ensures rv.Ok? && FirstEligible(stack, i + 1).None? ==>
      w.vals == vals[i := rv.value] && w.reseval == Some(rv.value) && w.err == None
  {
    ValsStore(stack, vals);
    SweepAdvance(stack, vals, consumed[..], i, reseval, fo, now);
    rv := Call(current[i].fnEval.value, i, Vals(current), consumed, current[i].nbParam, fo, now);
  }

  /** Exactly the eligible slots below `k` have run. */
  predicate DoneBelow(stack: seq<Token>, done: seq<bool>, k: nat) {
    |done| == |stack| && forall j :: 0 <= j < |stack| ==> done[j] == (j < k && Eligible(stack[j]))
  }

  lemma DoneMark(stack: seq<Token>, done: seq<bool>, i: nat)
    requires i < |stack| && Eligible(stack[i]) && DoneBelow(stack, done, i)
    ensures DoneBelow(stack, done[i := true], i + 1)
  {
  }

  /** With the eligible slots up to `i` done, the next pending slot is the next eligible one. */
  lemma PendingIsNext(stack: seq<Token>, done: seq<bool>, i: nat, pending: Option<nat>)
    requires i < |stack| && DoneBelow(stack, done, i + 1)
    requires pending.Some? ==> (pending.value < |stack| && !done[pending.value] && Eligible(stack[pending.value]) &&
      forall j :: 0 <= j < pending.value ==> done[j] || !Eligible(stack[j]))
    requires pending.None? ==> forall j :: 0 <= j < |stack| ==> done[j] || !Eligible(stack[j])
    ensures pending == FirstEligible(stack, i + 1)
  {
  }

  lemma ValsStore(stack: seq<Token>, vals: seq<EVar>)
    requires |vals| == |stack|
    ensures Vals(Store(stack, vals)) == vals
  {
  }

  lemma StoreUpdate(stack: seq<Token>, vals: seq<EVar>, i: nat, v: EVar)
    requires |vals| == |stack| && i < |stack|
    ensures Store(stack, vals)[i := Store(stack, vals)[i].(val := v)] == Store(stack, vals[i := v])
  {
  }
}
