/**
 * Tokens, error codes and the three static catalogs (operators, functions,
 * constants) of the expression engine, with the textual rendering of a
 * token sequence.
 */
module Tokens {
  import opened Wrappers
  import opened Int64
  import opened Variant

  datatype LexErr =
    | BadStart | FunctionOrConstNotFound | FunctionOrConst | BadHexInit | BadSigBdp | BadSigAdp
    | BadExpSign | BadExpASign | BadExpVal | BadHex | QuoteAfterOp | BadOperatorShort | BadOperatorLong

  datatype ParErr = ParamNb | MatchingPar

  /** Execution errors; `EvalNullFn` is the code the null callback reports. */
  datatype ExErr =
    | NotParsed | TooManyParams | StartWrongToken | WrongStackLen | StartOperandMissing | TokenNotFound
    | GetOperandMissing | GetOperandStart | EvalDiv0 | EvalMaxParam | EvalAvgParam | EvalNullFn

  /** `RpnError::None` is called `NoError` here. */
  datatype RpnError = NoError | AnaLex(lex: LexErr) | Parse(par: ParErr) | Exec(ex: ExErr)

  /** The category string an error displays as. */
  function ErrorMessage(e: RpnError): (m: string)
    ensures e.AnaLex? <==> m == "rpn analex error"
    ensures e.Parse? <==> m == "rpn parsing error"
    ensures e.Exec? <==> m == "rpn exec error"
  {
    match e
    case AnaLex(_) => "rpn analex error"
    case Exec(_) => "rpn exec error"
    case Parse(_) => "rpn parsing error"
    case NoError => "no error"
  }

  datatype TokKind = Void | Operator | Number | Function | Constant | CString | Separator | OPar | CPar

  datatype OpId = Plus | Minus | Mul | Div | Equal

  datatype FuCoId = Sin | Cos | Pow | Max | Avg | Pi | Euler | True | False

  datatype TokenId = Oper(op: OpId) | FuCo(fc: FuCoId)

  /**
   * The evaluation callbacks a token can carry (the function pointers of
   * the source), one per `eval_*` function. `EvalEqLib` is the `==`
   * callback of the operator table, which compares with the hand-written `PartialEq`
   * rather than with `ev_eq`.
   */
  datatype Callback =
    | EvalNull | EvalPlus | EvalSub | EvalMul | EvalDiv
    | EvalEq | EvalNeq | EvalInfEq | EvalInf | EvalSupEq | EvalSup
    | EvalBitNot | EvalBand | EvalBor | EvalBitXor | EvalShl | EvalShr
    | EvalAnd | EvalOr | EvalLogNot | EvalMath(fn: MathFn) | EvalPow
    | EvalMax | EvalMin | EvalAvg | EvalNow | EvalEqLib

  /**
   * One token. `text` is the lexeme, `val` the literal value (later the
   * computed value of an operator or function slot), `params` the declared
   * arity of a function and `nbParam` the resolved operand count of this
   * occurrence. The transient consumed/executed flags live in the evaluator.
   */
  datatype Token = Token(
    kind: TokKind,
    id: Option<TokenId>,
    prec: nat,
    unary: bool,
    text: string,
    val: EVar,
    fnEval: Option<Callback>,
    params: Option<nat>,
    nbParam: nat)

  /** `Token::new()`. */
  function NewToken(): Token {
    Token(Void, None, 0, false, "", IVal(0), None, None, 0)
  }

  predicate IsOperand(t: Token) {
    t.kind == Number || t.kind == Constant || t.kind == CString
  }

  predicate IsGenericSep(t: Token) {
    t.kind == Separator || t.kind == OPar || t.kind == CPar
  }

  predicate IsParamSep(t: Token) {
    t.kind == Separator
  }

  predicate IsOpar(t: Token) {
    t.kind == OPar
  }

  predicate IsFunction(t: Token) {
    t.kind == Function
  }

  /** Only an operator can be unary. */
  predicate IsUnary(t: Token) {
    t.kind == Operator && t.unary
  }

  /**
   * `set_unary`: on an operator, record the unary flag and the matching
   * operand count (1 or 2) and echo the flag; any other token is left as is
   * and false is returned.
   */
  function SetUnary(t: Token, val: bool): (r: (Token, bool))
    ensures t.kind == Operator ==> r.1 == val && IsUnary(r.0) == val && r.0.nbParam == (if val then 1 else 2)
    ensures t.kind == Operator ==> r.0 == t.(unary := r.0.unary, nbParam := r.0.nbParam)
    ensures t.kind != Operator ==> r == (t, false)
  {
    if t.kind == Operator then (t.(unary := val, nbParam := if val then 1 else 2), val)
    else (t, false)
  }

  datatype OperatorDef = OperatorDef(id: TokenId, prec: nat, name: string, fnEval: Callback)

  datatype FuDef = FuDef(id: TokenId, params: Option<nat>, name: string, fnEval: Callback)

  datatype CoDef = CoDef(id: TokenId, name: string, val: EVar)

  const OPERATORS: seq<OperatorDef> := [
    OperatorDef(Oper(Plus), 1, "+", EvalPlus),
    OperatorDef(Oper(Minus), 1, "-", EvalSub),
    OperatorDef(Oper(Mul), 10, "*", EvalMul),
    OperatorDef(Oper(Div), 11, "/", EvalDiv),
    OperatorDef(Oper(Equal), 1, "==", EvalEqLib)
  ]

  const FUDEF: seq<FuDef> := [
    FuDef(FuCo(FuCoId.Sin), Some(1), "sin", EvalMath(MathFn.Sin)),
    FuDef(FuCo(FuCoId.Cos), Some(1), "cos", EvalMath(MathFn.Cos)),
    FuDef(FuCo(Pow), Some(2), "power", EvalPow),
    FuDef(FuCo(Max), None, "max", EvalMax),
    FuDef(FuCo(Avg), None, "avg", EvalAvg)
  ]

  const CODEF: seq<CoDef> := [
    CoDef(FuCo(Pi), "pi", FVal(PI)),
    CoDef(FuCo(Pi), "π", FVal(PI)),
    CoDef(FuCo(Euler), "e", FVal(EULER)),
    CoDef(FuCo(True), "true", BVal(true)),
    CoDef(FuCo(False), "false", BVal(false))
  ]

  /** The first operator definition named `name` (`OPERATORS.iter().find`). */
  function FindOperator(name: string): (r: Option<OperatorDef>)
    ensures r.Some? ==> r.value in OPERATORS && r.value.name == name
    ensures r.None? <==> forall k :: 0 <= k < |OPERATORS| ==> OPERATORS[k].name != name
  {
    FindOperatorFrom(name, 0)
  }

  function FindOperatorFrom(name: string, k: nat): (r: Option<OperatorDef>)
    requires k <= |OPERATORS|
    ensures r.Some? ==> r.value in OPERATORS[k..] && r.value.name == name
    ensures r.None? <==> forall j :: k <= j < |OPERATORS| ==> OPERATORS[j].name != name
    decreases |OPERATORS| - k
  {
    if k == |OPERATORS| then None
    else if OPERATORS[k].name == name then Some(OPERATORS[k])
    else FindOperatorFrom(name, k + 1)
  }

  function FindFunction(name: string): (r: Option<FuDef>)
    ensures r.Some? ==> r.value in FUDEF && r.value.name == name
    ensures r.None? <==> forall k :: 0 <= k < |FUDEF| ==> FUDEF[k].name != name
  {
    FindFunctionFrom(name, 0)
  }

  function FindFunctionFrom(name: string, k: nat): (r: Option<FuDef>)
    requires k <= |FUDEF|
    ensures r.Some? ==> r.value in FUDEF[k..] && r.value.name == name
    ensures r.None? <==> forall j :: k <= j < |FUDEF| ==> FUDEF[j].name != name
    decreases |FUDEF| - k
  {
    if k == |FUDEF| then None
    else if FUDEF[k].name == name then Some(FUDEF[k])
    else FindFunctionFrom(name, k + 1)
  }

  function FindConstant(name: string): (r: Option<CoDef>)
    ensures r.Some? ==> r.value in CODEF && r.value.name == name
    ensures r.None? <==> forall k :: 0 <= k < |CODEF| ==> CODEF[k].name != name
  {
    FindConstantFrom(name, 0)
  }

  function FindConstantFrom(name: string, k: nat): (r: Option<CoDef>)
    requires k <= |CODEF|
    ensures r.Some? ==> r.value in CODEF[k..] && r.value.name == name
    ensures r.None? <==> forall j :: k <= j < |CODEF| ==> CODEF[j].name != name
    decreases |CODEF| - k
  {
    if k == |CODEF| then None
    else if CODEF[k].name == name then Some(CODEF[k])
    else FindConstantFrom(name, k + 1)
  }

  /**
   * How one token is shown in a rendered sequence: its lexeme, then its
   * annotation.
   */
  function RenderToken(t: Token): string {
    if t.kind == Function || t.kind == Operator then t.text + Annotation(t) else t.text + " "
  }

  /** What follows a lexeme: the parameter count of a function or un/bi for an operator, and a space. */
  function Annotation(t: Token): string {
    match t.kind
    case Function => "(" + DecimalDigits(t.nbParam) + ") "
    case Operator => if t.unary then "(un) " else "(bi) "
    case _ => " "
  }

  /** `Display for TokenVec`: the tokens rendered one after the other. */
  function RenderTokens(ts: seq<Token>): string {
    if ts == [] then "" else RenderTokens(ts[..|ts| - 1]) + RenderToken(ts[|ts| - 1])
  }

  /** Rendering distributes over concatenation. */
  lemma {:induction false} RenderConcat(a: seq<Token>, b: seq<Token>)
    ensures RenderTokens(a + b) == RenderTokens(a) + RenderTokens(b)
    decreases |b|
  {
    if b == [] {
      assert a + b == a;
    } else {
      var b', t := b[..|b| - 1], b[|b| - 1];
      assert (a + b)[..|a + b| - 1] == a + b';
      assert (a + b)[|a + b| - 1] == t;
      RenderConcat(a, b');
      var x, y, z := RenderTokens(a), RenderTokens(b'), RenderToken(t);
      assert RenderTokens(a + b) == (x + y) + z;
      assert RenderTokens(b) == y + z;
      Associate(x, y, z);
    }
  }

  /**
   * The rendering of a sequence is, token after token, each lexeme
   * followed by its annotation: token `k` sits between the rendering of
   * the tokens before it and that of the tokens after it.
   */
  lemma RenderSlot(ts: seq<Token>, k: nat)
    requires k < |ts|
    ensures RenderTokens(ts) == RenderTokens(ts[..k]) + ts[k].text + Annotation(ts[k]) + RenderTokens(ts[k + 1..])
    ensures var a := Annotation(ts[k]); |a| >= 1 && a[|a| - 1] == ' '
  {
    var pre, t, post := ts[..k], ts[k], ts[k + 1..];
    var a, c := RenderTokens(pre), RenderTokens(post);
    assert (pre + [t])[..|pre|] == pre;
    assert RenderTokens(pre + [t]) == a + RenderToken(t);
    assert ts == (pre + [t]) + post;
    RenderConcat(pre + [t], post);
    assert RenderTokens(ts) == a + RenderToken(t) + c;
    Regroup(a, t.text, Annotation(t), c);
    AnnotationEndsInSpace(t);
  }

  lemma AnnotationEndsInSpace(t: Token)
    ensures var a := Annotation(t); |a| >= 1 && a[|a| - 1] == ' '
  {
  }

  lemma Associate(x: string, y: string, z: string)
    ensures (x + y) + z == x + (y + z)
  {
  }

  lemma Regroup(a: string, x: string, y: string, c: string)
    ensures a + (x + y) + c == a + x + y + c
  {
  }
}
