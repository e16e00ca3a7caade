/**
 * Operand retrieval and the evaluation callbacks.
 *
 * During evaluation every slot of the RPN stack carries a "consumed" flag.
 * A callback running at slot `i` claims its operands by scanning backwards
 * from `i` for the nearest unconsumed slot (`get_operand`) and marking it.
 * The flags are an `array<bool>` that the callbacks update in place; the
 * slot values are handed over as a sequence.
 *
 * Every method is proved against a pure function of the old flags
 * (`Take`, `SpecUnary`, ..., `Spec`) returning the result together with the
 * new flags, and the lemmas at the end of the module state what those
 * functions guarantee: which operands are claimed, in which order they are
 * combined, and exactly when a callback fails.
 */
module Operands {
  import opened Wrappers
  import opened Int64
  import opened Variant
  import opened Tokens

  /** The outcome of a callback: its result and the consumed flags it leaves behind. */
  datatype Step = Step(res: Result<EVar, RpnError>, flags: seq<bool>)

  function Fail(e: ExErr, flags: seq<bool>): Step {
    Step(Err(Exec(e)), flags)
  }

  /** The nearest slot below `k` whose flag is still clear, if any. */
  function NearestFree(flags: seq<bool>, k: nat): (r: Option<nat>)
    ensures r.Some? ==> r.value < k && r.value < |flags| && !flags[r.value]
    ensures r.Some? ==> forall j :: r.value < j < k && j < |flags| ==> flags[j]
    ensures r.None? ==> forall j :: 0 <= j < k && j < |flags| ==> flags[j]
    decreases k
  {
    if k == 0 then None
    else if k - 1 < |flags| && !flags[k - 1] then Some(k - 1)
    else NearestFree(flags, k - 1)
  }

  /**
   * `get_operand` on the flags: a start at slot 0 is an error, otherwise the
   * nearest free slot below the start is claimed, and when there is none the
   * operand is missing. A failure leaves the flags alone.
   */
  function Take(flags: seq<bool>, istart: nat): (r: Result<(nat, seq<bool>), ExErr>)
    ensures r.Ok? ==> r.value.0 < istart && r.value.0 < |flags| && !flags[r.value.0]
    ensures r.Ok? ==> r.value.1 == flags[r.value.0 := true]
    ensures r.Ok? ==> forall j :: r.value.0 < j < istart && j < |flags| ==> flags[j]
    ensures r == Err(GetOperandStart) <==> istart == 0
    ensures r == Err(GetOperandMissing) <==> istart > 0 && forall j :: 0 <= j < istart && j < |flags| ==> flags[j]
    ensures r.Err? ==> r.error == GetOperandStart || r.error == GetOperandMissing
  {
    if istart == 0 then Err(GetOperandStart)
    else
      match NearestFree(flags, istart)
      case None => Err(GetOperandMissing)
      case Some(j) => Ok((j, flags[j := true]))
  }

  /** `get_operand`: scan backwards from `istart` and claim the first free slot. */
  method GetOperand(consumed: array<bool>, istart: nat) returns (r: Result<nat, ExErr>)
    modifies consumed
    ensures r.Ok? ==> Take(old(consumed[..]), istart) == Ok((r.value, consumed[..]))
    ensures r.Err? ==> Take(old(consumed[..]), istart) == Err(r.error) && consumed[..] == old(consumed[..])
  {
    if istart == 0 {
      return Err(GetOperandStart);
    }
    var i: nat := istart;
    while i > 0
      invariant i <= istart
      invariant consumed[..] == old(consumed[..])
      invariant NearestFree(consumed[..], i) == NearestFree(consumed[..], istart)
    {
      i := i - 1;
      if i < consumed.Length && !consumed[i] {
        consumed[i] := true;
        return Ok(i);
      }
    }
    return Err(GetOperandMissing);
  }

  /** The number of free slots below `k`. */
  function CountFree(flags: seq<bool>, k: nat): (n: nat)
    ensures n <= k
    decreases k
  {
    if k == 0 then 0
    else CountFree(flags, k - 1) + (if k - 1 < |flags| && !flags[k - 1] then 1 else 0)
  }

  // ---------------------------------------------------------------------
  // What each callback computes from its operands.
  // ---------------------------------------------------------------------

  /** Callbacks that read a single operand (`+` and `-` when unary). */
  predicate OneOperand(cb: Callback, nb: nat) {
    cb.EvalBitNot? || cb.EvalLogNot? || cb.EvalMath? || ((cb.EvalPlus? || cb.EvalSub?) && nb == 1)
  }

  /**
   * Callbacks that read exactly two operands and cannot fail on their
   * values: all but `null`, `now`, `/`, the variadic ones and the
   * one-operand ones.
   */
  predicate TwoOperands(cb: Callback, nb: nat) {
    !(cb.EvalNull? || cb.EvalNow? || cb.EvalDiv? || cb.EvalMax? || cb.EvalMin? || cb.EvalAvg? || OneOperand(cb, nb))
  }

  /** The comparison callbacks, which all answer with a boolean. */
  predicate Comparison(cb: Callback) {
    cb.EvalEq? || cb.EvalNeq? || cb.EvalInfEq? || cb.EvalInf? || cb.EvalSupEq? || cb.EvalSup?
    || cb.EvalAnd? || cb.EvalOr? || cb.EvalEqLib?
  }

  /** The two-operand bit-wise callbacks, which all answer with an integer. */
  predicate Bitwise(cb: Callback) {
    cb.EvalBand? || cb.EvalBor? || cb.EvalBitXor? || cb.EvalShl? || cb.EvalShr?
  }

  /**
   * The value of a one-operand callback: `~`, `!`, the float functions,
   * unary minus as `0 - a`; the remaining one-operand callback, unary `+`,
   * returns its operand unchanged.
   */
  function UnaryResult(cb: Callback, a: EVar, fo: FloatOps): (r: EVar)
    ensures cb.EvalMath? ==> r.FVal?
    ensures cb.EvalBitNot? ==> r.IVal?
    ensures cb.EvalLogNot? ==> r.BVal?
  {
    match cb
    case EvalBitNot => IVal(EvBitNot(a, fo))
    case EvalLogNot => BVal(EvLogNot(a, fo))
    case EvalMath(m) => Math(m, a, fo)
    case EvalSub => Sub(IVal(0), a, fo)
    case _ => a
  }

  /** The boolean a comparison callback answers; the remaining one, `==`, uses the hand-written `PartialEq` impl. */
  function Compare(cb: Callback, a2: EVar, a1: EVar, fo: FloatOps): bool {
    match cb
    case EvalEq => EvEq(a2, a1, fo)
    case EvalNeq => !EvEq(a2, a1, fo)
    case EvalInfEq => EvInfEq(a2, a1, fo)
    case EvalInf => EvInf(a2, a1, fo)
    case EvalSupEq => EvSupEq(a2, a1, fo)
    case EvalSup => EvSup(a2, a1, fo)
    case EvalAnd => Variant.Equal(a2, BVal(true), fo) && Variant.Equal(a1, BVal(true), fo)
    case EvalOr => Variant.Equal(a2, BVal(true), fo) || Variant.Equal(a1, BVal(true), fo)
    case _ => Variant.Equal(a2, a1, fo)
  }

  /** The integer a bit-wise callback answers; the remaining one is `>>`. */
  function Bits(cb: Callback, a2: EVar, a1: EVar, fo: FloatOps): I64 {
    match cb
    case EvalBand => EvBand(a2, a1, fo)
    case EvalBor => EvBor(a2, a1, fo)
    case EvalBitXor => EvBitXor(a2, a1, fo)
    case EvalShl => EvShl(a2, a1, fo)
    case _ => EvShr(a2, a1, fo)
  }

  /**
   * The value of a two-operand callback. `a2` is the operand further down
   * the stack (the left-hand side as written), `a1` the nearer one. The
   * remaining two-operand callback, binary `+`, adds them.
   */
  function BinaryResult(cb: Callback, a2: EVar, a1: EVar, fo: FloatOps): (r: EVar)
    ensures Comparison(cb) ==> r.BVal?
    ensures Bitwise(cb) ==> r.IVal?
  {
    if Comparison(cb) then BVal(Compare(cb, a2, a1, fo))
    else if Bitwise(cb) then IVal(Bits(cb, a2, a1, fo))
    else if cb.EvalSub? then Sub(a2, a1, fo)
    else if cb.EvalMul? then Variant.Mul(a2, a1, fo)
    else if cb.EvalPow? then PowV(a2, a1, fo)
    else Add(a2, a1, fo)
  }

  /** A divisor `/` refuses: integer 0, a float equal to 0.0, `false`, or any string. */
  predicate DivByZero(v: EVar, fo: FloatOps) {
    match v
    case IVal(i) => i == 0
    case FVal(f) => IsZeroFloat(f, fo)
    case BVal(b) => !b
    case SVal(_) => true
  }

  /** The folds behind `max`, `min` and `avg`. */
  datatype Fold = MaxFold | MinFold | SumFold

  function Combine(f: Fold, acc: EVar, v: EVar, fo: FloatOps): (r: EVar)
    ensures r.FVal? <==> IsFloat(acc) || IsFloat(v)
    ensures !r.FVal? ==> r.IVal?
  {
    match f
    case MaxFold => MaxV(acc, v, fo)
    case MinFold => MinV(acc, v, fo)
    case SumFold => Add(acc, v, fo)
  }

  /** `nb as f64`; a parameter count always lies in the i64 range in practice. */
  function CountAsFloat(nb: nat, fo: FloatOps): Float {
    fo.ofInt(Wrap(nb))
  }

  // ---------------------------------------------------------------------
  // The callbacks as functions of the old flags.
  // ---------------------------------------------------------------------

  function SpecUnary(cb: Callback, i: nat, vals: seq<EVar>, flags: seq<bool>, fo: FloatOps): Step
    requires |vals| == |flags|
  {
    match Take(flags, i)
    case Err(e) => Fail(e, flags)
    case Ok((j, f1)) => Step(Ok(UnaryResult(cb, vals[j], fo)), f1)
  }

  function SpecBinary(cb: Callback, i: nat, vals: seq<EVar>, flags: seq<bool>, fo: FloatOps): Step
    requires |vals| == |flags|
  {
    match Take(flags, i)
    case Err(e) => Fail(e, flags)
    case Ok((j1, f1)) =>
      match Take(f1, j1)
      case Err(e) => Fail(e, f1)
      case Ok((j2, f2)) => Step(Ok(BinaryResult(cb, vals[j2], vals[j1], fo)), f2)
  }

  /** `/` checks its divisor before it claims the dividend. */
  function SpecDiv(i: nat, vals: seq<EVar>, flags: seq<bool>, fo: FloatOps): Step
    requires |vals| == |flags|
  {
    match Take(flags, i)
    case Err(e) => Fail(e, flags)
    case Ok((j1, f1)) =>
      if DivByZero(vals[j1], fo) then Fail(EvalDiv0, f1)
      else
        match Take(f1, j1)
        case Err(e) => Fail(e, f1)
        case Ok((j2, f2)) => Step(Ok(Variant.Div(vals[j2], vals[j1], fo)), f2)
  }

  /** Fold `count` more operands, each claimed below the previous one, into `acc`. */
  function Gather(f: Fold, acc: EVar, idx: nat, vals: seq<EVar>, flags: seq<bool>, count: nat, fo: FloatOps): (r: Step)
    requires |vals| == |flags|
    ensures |r.flags| == |flags|
    decreases count
  {
    if count == 0 then Step(Ok(acc), flags)
    else
      match Take(flags, idx)
      case Err(e) => Fail(e, flags)
      case Ok((k, f1)) => Gather(f, Combine(f, acc, vals[k], fo), k, vals, f1, count - 1, fo)
  }

  function SpecFold(f: Fold, i: nat, vals: seq<EVar>, flags: seq<bool>, nb: nat, fo: FloatOps): (r: Step)
    requires |vals| == |flags|
    requires nb > 0
  {
    match Take(flags, i)
    case Err(e) => Fail(e, flags)
    case Ok((j, f1)) => Gather(f, vals[j], j, vals, f1, nb - 1, fo)
  }

  /** `avg`: the sum of the operands divided by the float `nb`. */
  function SpecAvg(i: nat, vals: seq<EVar>, flags: seq<bool>, nb: nat, fo: FloatOps): Step
    requires |vals| == |flags|
    requires nb > 0
  {
    var s := SpecFold(SumFold, i, vals, flags, nb, fo);
    match s.res
    case Err(_) => s
    case Ok(v) => Step(Ok(Variant.Div(v, FVal(CountAsFloat(nb, fo)), fo)), s.flags)
  }

  /**
   * A callback run at slot `i` with `nb` operands. `now` is the clock
   * reading `now` returns (seconds since the Unix epoch).
   */
  function Spec(cb: Callback, i: nat, vals: seq<EVar>, flags: seq<bool>, nb: nat, fo: FloatOps, now: I64): Step
    requires |vals| == |flags|
  {
    if cb.EvalNull? then Fail(EvalNullFn, flags)
    else if cb.EvalNow? then Step(Ok(IVal(now)), flags)
    else if cb.EvalDiv? then SpecDiv(i, vals, flags, fo)
    else if cb.EvalMax? then (if nb > 0 then SpecFold(MaxFold, i, vals, flags, nb, fo) else Fail(EvalMaxParam, flags))
    else if cb.EvalMin? then (if nb > 0 then SpecFold(MinFold, i, vals, flags, nb, fo) else Fail(EvalMaxParam, flags))
    else if cb.EvalAvg? then (if nb > 0 then SpecAvg(i, vals, flags, nb, fo) else Fail(EvalAvgParam, flags))
    else if OneOperand(cb, nb) then SpecUnary(cb, i, vals, flags, fo)
    else SpecBinary(cb, i, vals, flags, fo)
  }

  // ---------------------------------------------------------------------
  // The callbacks as methods over the flag array.
  // ---------------------------------------------------------------------

  method CallUnary(cb: Callback, i: nat, vals: seq<EVar>, consumed: array<bool>, fo: FloatOps)
    returns (r: Result<EVar, RpnError>)
    requires consumed.Length == |vals|
    modifies consumed
    ensures Step(r, consumed[..]) == SpecUnary(cb, i, vals, old(consumed[..]), fo)
  {
    var o1 := GetOperand(consumed, i);
    if o1.Err? {
      return Err(Exec(o1.error));
    }
    r := Ok(UnaryResult(cb, vals[o1.value], fo));
  }

  method CallBinary(cb: Callback, i: nat, vals: seq<EVar>, consumed: array<bool>, fo: FloatOps)
    returns (r: Result<EVar, RpnError>)
    requires consumed.Length == |vals|
    modifies consumed
    ensures Step(r, consumed[..]) == SpecBinary(cb, i, vals, old(consumed[..]), fo)
  {
    var o1 := GetOperand(consumed, i);
    if o1.Err? {
      return Err(Exec(o1.error));
    }
    var o2 := GetOperand(consumed, o1.value);
    if o2.Err? {
      return Err(Exec(o2.error));
    }
    r := Ok(BinaryResult(cb, vals[o2.value], vals[o1.value], fo));
  }

  method CallDiv(i: nat, vals: seq<EVar>, consumed: array<bool>, fo: FloatOps)
    returns (r: Result<EVar, RpnError>)
    requires consumed.Length == |vals|
    modifies consumed
    ensures Step(r, consumed[..]) == SpecDiv(i, vals, old(consumed[..]), fo)
  {
    var o1 := GetOperand(consumed, i);
    if o1.Err? {
      return Err(Exec(o1.error));
    }
    if DivByZero(vals[o1.value], fo) {
      return Err(Exec(EvalDiv0));
    }
    var o2 := GetOperand(consumed, o1.value);
    if o2.Err? {
      return Err(Exec(o2.error));
    }
    r := Ok(Variant.Div(vals[o2.value], vals[o1.value], fo));
  }

  /** The loop shared by `max`, `min` and `avg`: claim `nb` operands walking down the stack. */
  method CallFold(f: Fold, i: nat, vals: seq<EVar>, consumed: array<bool>, nb: nat, fo: FloatOps)
    returns (r: Result<EVar, RpnError>)
    requires consumed.Length == |vals|
    requires nb > 0
    modifies consumed
    ensures Step(r, consumed[..]) == SpecFold(f, i, vals, old(consumed[..]), nb, fo)
  {
    var o := GetOperand(consumed, i);
    if o.Err? {
      return Err(Exec(o.error));
    }
    ghost var j, flags1 := o.value, consumed[..];
    var idx := o.value;
    var rv := vals[idx];
    var k := 0;
    while k < nb - 1
      invariant k <= nb - 1
      invariant Gather(f, rv, idx, vals, consumed[..], nb - 1 - k, fo) == Gather(f, vals[j], j, vals, flags1, nb - 1, fo)
    {
      var ok := GetOperand(consumed, idx);
      if ok.Err? {
        return Err(Exec(ok.error));
      }
      rv := Combine(f, rv, vals[ok.value], fo);
      idx := ok.value;
      k := k + 1;
    }
    r := Ok(rv);
  }

  /** Run the callback `cb` at slot `i`. */
  method Call(cb: Callback, i: nat, vals: seq<EVar>, consumed: array<bool>, nb: nat, fo: FloatOps, now: I64)
    returns (r: Result<EVar, RpnError>)
    requires consumed.Length == |vals|
    modifies consumed
    ensures Step(r, consumed[..]) == Spec(cb, i, vals, old(consumed[..]), nb, fo, now)
  {
    if cb.EvalNull? {
      r := Err(Exec(EvalNullFn));
    } else if cb.EvalNow? {
      r := Ok(IVal(now));
    } else if cb.EvalDiv? {
      r := CallDiv(i, vals, consumed, fo);
    } else if cb.EvalMax? || cb.EvalMin? || cb.EvalAvg? {
      if nb == 0 {
        r := Err(Exec(if cb.EvalAvg? then EvalAvgParam else EvalMaxParam));
      } else {
        var f := if cb.EvalMax? then MaxFold else if cb.EvalMin? then MinFold else SumFold;
        r := CallFold(f, i, vals, consumed, nb, fo);
        if cb.EvalAvg? && r.Ok? {
          r := Ok(Variant.Div(r.value, FVal(CountAsFloat(nb, fo)), fo));
        }
      }
    } else if OneOperand(cb, nb) {
      r := CallUnary(cb, i, vals, consumed, fo);
    } else {
      r := CallBinary(cb, i, vals, consumed, fo);
    }
  }

  // ---------------------------------------------------------------------
  // Counting free slots.
  // ---------------------------------------------------------------------

  /** Slots that are all consumed add nothing to the count. */
  lemma {:induction false} CountFreeAllTaken(flags: seq<bool>, lo: nat, k: nat)
    requires lo <= k
    requires forall j :: lo <= j < k && j < |flags| ==> flags[j]
    ensures CountFree(flags, k) == CountFree(flags, lo)
    decreases k
  {
    if k > lo {
      CountFreeAllTaken(flags, lo, k - 1);
    }
  }

  /** The count below `k` only depends on the flags below `k`. */
  lemma {:induction false} CountFreePrefix(a: seq<bool>, b: seq<bool>, k: nat)
    requires forall j :: 0 <= j < k ==> (j < |a| && !a[j]) == (j < |b| && !b[j])
    ensures CountFree(a, k) == CountFree(b, k)
    decreases k
  {
    if k > 0 {
      CountFreePrefix(a, b, k - 1);
    }
  }

  /** Claiming one free slot below `k` lowers the count below `k` by one. */
  lemma {:induction false} ClaimOne(flags: seq<bool>, j: nat, k: nat)
    requires j < k && j < |flags| && !flags[j]
    ensures CountFree(flags[j := true], k) + 1 == CountFree(flags, k)
    decreases k
  {
    if k == j + 1 {
      CountFreePrefix(flags[j := true], flags, j);
    } else {
      ClaimOne(flags, j, k - 1);
    }
  }

  /** A free slot with only consumed slots between it and `k` is the nearest free one. */
  lemma {:induction false} NearestFreeIs(flags: seq<bool>, k: nat, j: nat)
    requires j < k && j < |flags| && !flags[j]
    requires forall m :: j < m < k && m < |flags| ==> flags[m]
    ensures NearestFree(flags, k) == Some(j)
    ensures Take(flags, k) == Ok((j, flags[j := true]))
    decreases k
  {
    if k - 1 != j {
      NearestFreeIs(flags, k - 1, j);
    }
  }

  /**
   * `get_operand` fails exactly when no slot below the start is free, and
   * after a success the slots below the claimed one hold one free slot
   * fewer than the slots below the start did.
   */
  lemma {:induction false} TakeCount(flags: seq<bool>, istart: nat)
    ensures Take(flags, istart).Err? <==> CountFree(flags, istart) == 0
    ensures Take(flags, istart).Ok? ==>
      CountFree(Take(flags, istart).value.1, Take(flags, istart).value.0) + 1 == CountFree(flags, istart)
  {
    var t := Take(flags, istart);
    if t.Err? {
      CountFreeAllTaken(flags, 0, istart);
    } else {
      var j := t.value.0;
      CountFreeAllTaken(flags, j + 1, istart);
      CountFreePrefix(flags[j := true], flags, j);
    }
  }

  // ---------------------------------------------------------------------
  // Properties of the callbacks.
  // ---------------------------------------------------------------------

  /** A fold of `count` operands succeeds exactly when that many slots are free below its start. */
  lemma {:induction false} GatherSucceeds(f: Fold, acc: EVar, idx: nat, vals: seq<EVar>, flags: seq<bool>, count: nat, fo: FloatOps)
    requires |vals| == |flags|
    ensures Gather(f, acc, idx, vals, flags, count, fo).res.Ok? <==> count <= CountFree(flags, idx)
    decreases count
  {
    if count > 0 {
      TakeCount(flags, idx);
      var t := Take(flags, idx);
      if t.Ok? {
        var (k, f1) := t.value;
        GatherSucceeds(f, Combine(f, acc, vals[k], fo), k, vals, f1, count - 1, fo);
      }
    }
  }

  /** A successful fold claims exactly `count` slots and releases none. */
  lemma {:induction false} GatherClaims(f: Fold, acc: EVar, idx: nat, vals: seq<EVar>, flags: seq<bool>, count: nat, fo: FloatOps)
    requires |vals| == |flags|
    ensures var g := Gather(f, acc, idx, vals, flags, count, fo);
      g.res.Ok? ==> CountFree(g.flags, |flags|) + count == CountFree(flags, |flags|)
    ensures var g := Gather(f, acc, idx, vals, flags, count, fo);
      forall j :: 0 <= j < |flags| && flags[j] ==> g.flags[j]
    decreases count
  {
    if count > 0 {
      var t := Take(flags, idx);
      if t.Ok? {
        var (k, f1) := t.value;
        ClaimOne(flags, k, |flags|);
        GatherClaims(f, Combine(f, acc, vals[k], fo), k, vals, f1, count - 1, fo);
      }
    }
  }

  /**
   * `max`, `min` and `avg` succeed exactly when they have at least one
   * parameter and that many free operands lie below their slot; they then
   * claim exactly `nb` slots.
   */
  lemma {:induction false} FoldSucceeds(cb: Callback, i: nat, vals: seq<EVar>, flags: seq<bool>, nb: nat, fo: FloatOps, now: I64)
    requires |vals| == |flags|
    requires cb.EvalMax? || cb.EvalMin? || cb.EvalAvg?
    ensures Spec(cb, i, vals, flags, nb, fo, now).res.Ok? <==> 0 < nb <= CountFree(flags, i)
    ensures Spec(cb, i, vals, flags, nb, fo, now).res.Ok? ==>
      CountFree(Spec(cb, i, vals, flags, nb, fo, now).flags, |flags|) + nb == CountFree(flags, |flags|)
    ensures nb == 0 ==>
      Spec(cb, i, vals, flags, nb, fo, now) == Fail(if cb.EvalAvg? then EvalAvgParam else EvalMaxParam, flags)
  {
    if nb > 0 {
      var f := if cb.EvalMax? then MaxFold else if cb.EvalMin? then MinFold else SumFold;
      TakeCount(flags, i);
      var t := Take(flags, i);
      if t.Ok? {
        var (j, f1) := t.value;
        ClaimOne(flags, j, |flags|);
        GatherSucceeds(f, vals[j], j, vals, f1, nb - 1, fo);
        GatherClaims(f, vals[j], j, vals, f1, nb - 1, fo);
      }
    }
  }

  /** `avg` always answers with a float, whatever its operands. */
  lemma AvgIsFloat(i: nat, vals: seq<EVar>, flags: seq<bool>, nb: nat, fo: FloatOps, now: I64)
    requires |vals| == |flags|
    ensures var s := Spec(EvalAvg, i, vals, flags, nb, fo, now); s.res.Ok? ==> s.res.value.FVal?
  {
  }

  /** `max` and `min` of a single operand give that operand back. */
  lemma {:induction false} FoldOfOne(cb: Callback, i: nat, vals: seq<EVar>, flags: seq<bool>, fo: FloatOps, now: I64, j: nat)
    requires |vals| == |flags|
    requires cb.EvalMax? || cb.EvalMin?
    requires j < i && j < |flags| && !flags[j]
    requires forall k :: j < k < i && k < |flags| ==> flags[k]
    ensures Spec(cb, i, vals, flags, 1, fo, now) == Step(Ok(vals[j]), flags[j := true])
  {
    NearestFreeIs(flags, i, j);
  }

  /**
   * A one-operand callback claims the nearest free slot below it and
   * applies itself to that slot's value.
   */
  lemma {:induction false} UnaryOperand(cb: Callback, i: nat, vals: seq<EVar>, flags: seq<bool>, nb: nat, fo: FloatOps, now: I64, j: nat)
    requires |vals| == |flags|
    requires OneOperand(cb, nb)
    requires j < i && j < |flags| && !flags[j]
    requires forall k :: j < k < i && k < |flags| ==> flags[k]
    ensures Spec(cb, i, vals, flags, nb, fo, now) == Step(Ok(UnaryResult(cb, vals[j], fo)), flags[j := true])
  {
    NearestFreeIs(flags, i, j);
  }

  /**
   * A two-operand callback claims the two nearest free slots below it; the
   * lower one is the left-hand operand, so `a b -` computes `a - b`.
   */
  lemma {:induction false} BinaryOperands(cb: Callback, i: nat, vals: seq<EVar>, flags: seq<bool>, nb: nat, fo: FloatOps, now: I64, j1: nat, j2: nat)
    requires |vals| == |flags|
    requires TwoOperands(cb, nb)
    requires j2 < j1 < i && j1 < |flags| && !flags[j1] && !flags[j2]
    requires forall k :: j2 < k < i && k != j1 && k < |flags| ==> flags[k]
    ensures Spec(cb, i, vals, flags, nb, fo, now) ==
      Step(Ok(BinaryResult(cb, vals[j2], vals[j1], fo)), flags[j1 := true][j2 := true])
  {
    NearestFreeIs(flags, i, j1);
    NearestFreeIs(flags[j1 := true], j1, j2);
  }

  /**
   * `/` claims its divisor first; a zero divisor stops it with the dividend
   * still unclaimed, and otherwise it divides the lower operand by the nearer.
   */
  lemma {:induction false} DivOperands(i: nat, vals: seq<EVar>, flags: seq<bool>, fo: FloatOps, now: I64, j1: nat, j2: nat)
    requires |vals| == |flags|
    requires j2 < j1 < i && j1 < |flags| && !flags[j1] && !flags[j2]
    requires forall k :: j2 < k < i && k != j1 && k < |flags| ==> flags[k]
    ensures DivByZero(vals[j1], fo) ==> Spec(EvalDiv, i, vals, flags, 0, fo, now) == Fail(EvalDiv0, flags[j1 := true])
    ensures !DivByZero(vals[j1], fo) ==>
      (Spec(EvalDiv, i, vals, flags, 0, fo, now) == Step(Ok(Variant.Div(vals[j2], vals[j1], fo)), flags[j1 := true][j2 := true]))
  {
    NearestFreeIs(flags, i, j1);
    NearestFreeIs(flags[j1 := true], j1, j2);
  }

  lemma UnarySucceeds(cb: Callback, i: nat, vals: seq<EVar>, flags: seq<bool>, fo: FloatOps)
    requires |vals| == |flags|
    ensures SpecUnary(cb, i, vals, flags, fo).res.Ok? <==> CountFree(flags, i) >= 1
  {
    TakeCount(flags, i);
  }

  lemma BinarySucceeds(cb: Callback, i: nat, vals: seq<EVar>, flags: seq<bool>, fo: FloatOps)
    requires |vals| == |flags|
    ensures SpecBinary(cb, i, vals, flags, fo).res.Ok? <==> CountFree(flags, i) >= 2
  {
    TakeCount(flags, i);
    var t := Take(flags, i);
    if t.Ok? {
      TakeCount(t.value.1, t.value.0);
    }
  }

  lemma DivNeedsTwo(i: nat, vals: seq<EVar>, flags: seq<bool>, fo: FloatOps)
    requires |vals| == |flags|
    ensures CountFree(flags, i) < 2 ==> SpecDiv(i, vals, flags, fo).res.Err?
  {
    TakeCount(flags, i);
    var t := Take(flags, i);
    if t.Ok? {
      TakeCount(t.value.1, t.value.0);
    }
  }

  /**
   * The fixed-arity callbacks fail on operands exactly when fewer free slots
   * than they need lie below them (for `/`, unless the divisor is refused).
   */
  lemma {:induction false} FixedAritySucceeds(cb: Callback, i: nat, vals: seq<EVar>, flags: seq<bool>, nb: nat, fo: FloatOps, now: I64)
    requires |vals| == |flags|
    ensures OneOperand(cb, nb) ==> (Spec(cb, i, vals, flags, nb, fo, now).res.Ok? <==> CountFree(flags, i) >= 1)
    ensures TwoOperands(cb, nb) ==> (Spec(cb, i, vals, flags, nb, fo, now).res.Ok? <==> CountFree(flags, i) >= 2)
    ensures cb.EvalDiv? && CountFree(flags, i) < 2 ==> Spec(cb, i, vals, flags, nb, fo, now).res.Err?
  {
    UnarySucceeds(cb, i, vals, flags, fo);
    BinarySucceeds(cb, i, vals, flags, fo);
    DivNeedsTwo(i, vals, flags, fo);
  }

  /** The flags `g` extend `flags`: no flag cleared, none at `i` or above changed, same length. */
  predicate Framed(flags: seq<bool>, i: nat, g: seq<bool>) {
    |g| == |flags|
    && (forall j :: 0 <= j < |flags| && flags[j] ==> g[j])
    && (forall j :: i <= j < |flags| ==> g[j] == flags[j])
  }

  /** Framing composes along a walk down the stack. */
  lemma FramedTrans(a: seq<bool>, i: nat, b: seq<bool>, k: nat, c: seq<bool>)
    requires k <= i
    requires Framed(a, i, b) && Framed(b, k, c)
    ensures Framed(a, i, c)
  {
  }

  lemma TakeFramed(flags: seq<bool>, istart: nat)
    ensures Take(flags, istart).Ok? ==> Framed(flags, istart, Take(flags, istart).value.1)
  {
  }

  /** A fold below `idx` never clears a flag and leaves slot `idx` and above alone. */
  lemma {:induction false} GatherFramed(f: Fold, acc: EVar, idx: nat, vals: seq<EVar>, flags: seq<bool>, count: nat, fo: FloatOps)
    requires |vals| == |flags|
    ensures Framed(flags, idx, Gather(f, acc, idx, vals, flags, count, fo).flags)
    decreases count
  {
    if count > 0 {
      var t := Take(flags, idx);
      TakeFramed(flags, idx);
      if t.Ok? {
        var (k, f1) := t.value;
        GatherFramed(f, Combine(f, acc, vals[k], fo), k, vals, f1, count - 1, fo);
        FramedTrans(flags, idx, f1, k, Gather(f, Combine(f, acc, vals[k], fo), k, vals, f1, count - 1, fo).flags);
      }
    }
  }

  lemma BinaryFramed(cb: Callback, i: nat, vals: seq<EVar>, flags: seq<bool>, fo: FloatOps)
    requires |vals| == |flags|
    ensures Framed(flags, i, SpecBinary(cb, i, vals, flags, fo).flags)
  {
    TakeFramed(flags, i);
    var t := Take(flags, i);
    if t.Ok? {
      TakeFramed(t.value.1, t.value.0);
    }
  }

  lemma DivFramed(i: nat, vals: seq<EVar>, flags: seq<bool>, fo: FloatOps)
    requires |vals| == |flags|
    ensures Framed(flags, i, SpecDiv(i, vals, flags, fo).flags)
  {
    TakeFramed(flags, i);
    var t := Take(flags, i);
    if t.Ok? {
      TakeFramed(t.value.1, t.value.0);
    }
  }

  lemma FoldFramed(f: Fold, i: nat, vals: seq<EVar>, flags: seq<bool>, nb: nat, fo: FloatOps)
    requires |vals| == |flags|
    requires nb > 0
    ensures Framed(flags, i, SpecFold(f, i, vals, flags, nb, fo).flags)
  {
    TakeFramed(flags, i);
    var t := Take(flags, i);
    if t.Ok? {
      var (j, f1) := t.value;
      GatherFramed(f, vals[j], j, vals, f1, nb - 1, fo);
    }
  }

  /**
   * No callback ever clears a flag or touches the flags of its own slot or
   * above, and the number of slots stays the same.
   */
  lemma {:induction false} SpecFramed(cb: Callback, i: nat, vals: seq<EVar>, flags: seq<bool>, nb: nat, fo: FloatOps, now: I64)
    requires |vals| == |flags|
    ensures Framed(flags, i, Spec(cb, i, vals, flags, nb, fo, now).flags)
  {
    if cb.EvalNull? || cb.EvalNow? {
    } else if cb.EvalDiv? {
      DivFramed(i, vals, flags, fo);
    } else if cb.EvalMax? || cb.EvalMin? || cb.EvalAvg? {
      if nb > 0 {
        FoldFramed(if cb.EvalMax? then MaxFold else if cb.EvalMin? then MinFold else SumFold, i, vals, flags, nb, fo);
      }
    } else if OneOperand(cb, nb) {
      TakeFramed(flags, i);
    } else {
      BinaryFramed(cb, i, vals, flags, fo);
    }
  }

  /** `a` and `b` hold the same values in every slot below `i`. */
  predicate SameBelow(a: seq<EVar>, b: seq<EVar>, i: nat) {
    |a| == |b| && forall j :: 0 <= j < i && j < |a| ==> a[j] == b[j]
  }

  lemma {:induction false} GatherLocal(f: Fold, acc: EVar, idx: nat, vals: seq<EVar>, vals': seq<EVar>, flags: seq<bool>, count: nat, fo: FloatOps)
    requires |vals| == |flags| && SameBelow(vals, vals', idx)
    ensures Gather(f, acc, idx, vals, flags, count, fo) == Gather(f, acc, idx, vals', flags, count, fo)
    decreases count
  {
    if count > 0 {
      var t := Take(flags, idx);
      if t.Ok? {
        var (k, f1) := t.value;
        GatherLocal(f, Combine(f, acc, vals[k], fo), k, vals, vals', f1, count - 1, fo);
      }
    }
  }

  /**
   * A callback at slot `i` reads only the values below `i`: the operands
   * of a postfix slot always lie under it.
   */
  lemma SpecLocal(cb: Callback, i: nat, vals: seq<EVar>, vals': seq<EVar>, flags: seq<bool>, nb: nat, fo: FloatOps, now: I64)
    requires |vals| == |flags| && SameBelow(vals, vals', i)
    ensures Spec(cb, i, vals, flags, nb, fo, now) == Spec(cb, i, vals', flags, nb, fo, now)
  {
    if (cb.EvalMax? || cb.EvalMin? || cb.EvalAvg?) && nb > 0 {
      FoldLocal(if cb.EvalMax? then MaxFold else if cb.EvalMin? then MinFold else SumFold, i, vals, vals', flags, nb, fo);
    }
  }

  lemma FoldLocal(f: Fold, i: nat, vals: seq<EVar>, vals': seq<EVar>, flags: seq<bool>, nb: nat, fo: FloatOps)
    requires |vals| == |flags| && SameBelow(vals, vals', i) && nb > 0
    ensures SpecFold(f, i, vals, flags, nb, fo) == SpecFold(f, i, vals', flags, nb, fo)
  {
    var t := Take(flags, i);
    if t.Ok? {
      var (j, f1) := t.value;
      GatherLocal(f, vals[j], j, vals, vals', f1, nb - 1, fo);
    }
  }
}
