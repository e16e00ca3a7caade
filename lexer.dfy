/**
 * The lexical state machine: `get_token` reads one token from a position of
 * the source text, with one character of look-ahead, and its helpers that
 * finish a number, an operator or an identifier.
 *
 * Character classes are those of ASCII: `is_numeric` is a decimal digit,
 * `is_alphabetic` an ASCII letter, `is_whitespace`/`is_control` the ASCII
 * blanks and control characters.
 */
module Lexer {
  import opened Wrappers
  import opened Int64
  import opened Variant
  import opened Tokens

  predicate IsAlphabetic(c: char) {
    'a' <= c <= 'z' || 'A' <= c <= 'Z'
  }

  /** `is_control() || is_whitespace()`: what the machine skips before a token and stops a token at. */
  predicate IsBlank(c: char) {
    c < ' ' || c == ' ' || c == '\U{7F}'
  }

  /** Membership in `OP_CHARS`: the eleven operator characters. */
  predicate IsOperatorChar(c: char) {
    c == '+' || c == '-' || c == '/' || c == '*' || c == '!' || c == '^' ||
    c == '&' || c == '=' || c == '|' || c == '<' || c == '>'
  }

  predicate IsExponentChar(c: char) { c == 'e' || c == 'E' }

  predicate IsHexaPrefix(c: char) { c == 'x' || c == 'X' }

  /** A character that may follow a number: an operator char, ')', ',' or a blank (also end of input). */
  predicate NumberTerminator(c: char) {
    IsOperatorChar(c) || c == ')' || c == ',' || c == ' '
  }

  /** A character that may follow an identifier: ',', ')', '(', a blank or an operator char. */
  predicate IdentTerminator(c: char) {
    c == ',' || c == ')' || c == '(' || c == ' ' || IsOperatorChar(c)
  }

  /** A character that can begin a token. */
  predicate StartChar(c: char) {
    IsDigit(c) || c == '.' || c == '"' || IsOperatorChar(c) || IsAlphabetic(c) ||
    c == '(' || c == ')' || c == ','
  }

  /** The first position at or after `pos` that is not blank (or the end). */
  function SkipBlank(s: string, pos: nat): (st: nat)
    requires pos <= |s|
    ensures pos <= st <= |s|
    ensures forall k :: pos <= k < st ==> IsBlank(s[k])
    ensures st < |s| ==> !IsBlank(s[st])
    decreases |s| - pos
  {
    if pos == |s| || !IsBlank(s[pos]) then pos else SkipBlank(s, pos + 1)
  }

  predicate AllAlphabetic(t: string) {
    forall k :: 0 <= k < |t| ==> IsAlphabetic(t[k])
  }

  predicate NoQuote(t: string) {
    forall k :: 0 <= k < |t| ==> t[k] != '"'
  }

  /** Digits, optionally with one decimal point at `dot` (dot < 0: none). */
  predicate Mantissa(m: string, dot: int) {
    if dot < 0 then |m| >= 1 && AllDigits(m)
    else dot < |m| && m[dot] == '.' && AllDigits(m[..dot]) && AllDigits(m[dot + 1..])
  }

  /** At least one digit, after an optional sign. */
  predicate ExponentValue(u: string) {
    (|u| >= 1 && AllDigits(u)) || (|u| >= 2 && (u[0] == '+' || u[0] == '-') && AllDigits(u[1..]))
  }

  /**
   * A float lexeme: a mantissa with a point, or a mantissa then `e`/`E` at
   * `ex` then an exponent value. A mantissa that is the single digit `0`
   * cannot take an exponent: after a leading `0` only `x`, a digit or a
   * point continue a number.
   */
  predicate FloatShape(t: string, dot: int, ex: int) {
    if ex < 0 then dot >= 0 && Mantissa(t, dot)
    else
      ex < |t| && IsExponentChar(t[ex]) && Mantissa(t[..ex], dot) && (dot >= 0 || t[..ex] != "0") &&
      ExponentValue(t[ex + 1..])
  }

  ghost predicate FloatLexeme(t: string) {
    exists dot: int, ex: int :: FloatShape(t, dot, ex)
  }

  /** `0x` then at least one hex digit. */
  predicate HexLexeme(t: string) {
    |t| >= 3 && t[0] == '0' && t[1] == 'x' && AllHexDigits(t[2..])
  }

  /** `trim_start_matches("0x")`: drop every leading "0x". */
  function TrimHexPrefix(t: string): (r: string)
    ensures |r| <= |t|
  {
    if |t| >= 2 && t[0] == '0' && t[1] == 'x' then TrimHexPrefix(t[2..]) else t
  }

  datatype NumType = Integer | Hexa | FloatNum

  /** A number token with the given lexeme and value. */
  function NumberToken(text: string, v: EVar): Token {
    NewToken().(kind := Number, text := text, val := v)
  }

  /** An operator token for the catalog entry `d`, whose name is `text`. */
  function OperatorToken(text: string, d: OperatorDef): Token {
    NewToken().(kind := TokKind.Operator, text := text, id := Some(d.id), prec := d.prec, fnEval := Some(d.fnEval))
  }

  /** A function token for the catalog entry `d`, whose name is `text`. */
  function FunctionToken(text: string, d: FuDef): Token {
    NewToken().(kind := Function, text := text, fnEval := Some(d.fnEval), id := Some(d.id), params := d.params)
  }

  /** A constant token for the catalog entry `d`, whose name is `text`. */
  function ConstantToken(text: string, d: CoDef): Token {
    NewToken().(kind := Constant, text := text, val := d.val, id := Some(d.id))
  }

  /** Whether the lexeme converts as the given number type. */
  predicate NumberParses(nt: NumType, text: string, fo: FloatOps) {
    match nt
    case Integer => ParseI64(text).Some?
    case Hexa => ParseHexI64(TrimHexPrefix(text)).Some?
    case FloatNum => fo.parse(text).Some?
  }

  /**
   * `get_token_number`: `svalue` ends with the look-ahead `c`. When `c` may
   * end a number it is dropped and the rest is parsed as the number type
   * says; otherwise, or when the parse fails, the state's error is returned.
   */
  function GetTokenNumber(c: char, nt: NumType, errcode: LexErr, svalue: string, fo: FloatOps): (r: Result<Token, LexErr>)
    requires |svalue| >= 1
    ensures !NumberTerminator(c) ==> r == Err(errcode)
    ensures r.Err? ==> r.error == errcode
    ensures r.Ok? ==> r.value.kind == Number && r.value.text == svalue[..|svalue| - 1]
    ensures r.Ok? && nt == Integer ==> r.value.val.IVal? && ParseI64(r.value.text) == Some(r.value.val.i)
    ensures r.Ok? && nt == Hexa ==> r.value.val.IVal? && ParseHexI64(TrimHexPrefix(r.value.text)) == Some(r.value.val.i)
    ensures r.Ok? && nt == FloatNum ==> r.value.val.FVal? && fo.parse(r.value.text) == Some(r.value.val.f)
    ensures r.Ok? <==> (NumberTerminator(c) && NumberParses(nt, svalue[..|svalue| - 1], fo))
  {
    if NumberTerminator(c) then
      var text := svalue[..|svalue| - 1];
      (match nt
       case Integer =>
         (match ParseI64(text)
          case Some(i) => Ok(NumberToken(text, IVal(i)))
          case None => Err(errcode))
       case Hexa =>
         (match ParseHexI64(TrimHexPrefix(text))
          case Some(i) => Ok(NumberToken(text, IVal(i)))
          case None => Err(errcode))
       case FloatNum =>
         (match fo.parse(text)
          case Some(f) => Ok(NumberToken(text, FVal(f)))
          case None => Err(errcode)))
    else Err(errcode)
  }

  /** `get_token_operator`: the lexeme must name an operator of the catalog. */
  function GetTokenOperator(errcode: LexErr, svalue: string): (r: Result<Token, LexErr>)
    ensures r.Ok? <==> FindOperator(svalue).Some?
    ensures r.Err? ==> r.error == errcode
    ensures r.Ok? ==> var d := FindOperator(svalue).value;
      r.value.kind == TokKind.Operator && r.value.text == svalue && r.value.prec == d.prec &&
      r.value.fnEval == Some(d.fnEval) && r.value.id == Some(d.id)
    ensures r.Ok? ==> r.value == OperatorToken(svalue, FindOperator(svalue).value)
  {
    match FindOperator(svalue)
    case Some(d) => Ok(OperatorToken(svalue, d))
    case None => Err(errcode)
  }

  /**
   * `get_token_fuco`: `svalue` ends with the look-ahead `c`, which is
   * dropped. After a proper terminator the name is looked up among the
   * functions first, then among the constants.
   */
  function GetTokenFuco(c: char, svalue: string): (r: Result<Token, LexErr>)
    requires |svalue| >= 1
    ensures !IdentTerminator(c) ==> r == Err(FunctionOrConst)
    ensures var name := svalue[..|svalue| - 1];
      IdentTerminator(c) ==>
        (FindFunction(name).Some? ==>
           r.Ok? && r.value.kind == Function && r.value.params == FindFunction(name).value.params &&
           r.value.fnEval == Some(FindFunction(name).value.fnEval)) &&
        (FindFunction(name).None? && FindConstant(name).Some? ==>
           r.Ok? && r.value.kind == Constant && r.value.val == FindConstant(name).value.val) &&
        (FindFunction(name).None? && FindConstant(name).None? ==> r == Err(FunctionOrConstNotFound))
    ensures r.Ok? ==> r.value.text == svalue[..|svalue| - 1]
    ensures var name := svalue[..|svalue| - 1];
      r.Ok? ==> r.value == if FindFunction(name).Some? then FunctionToken(name, FindFunction(name).value)
                           else ConstantToken(name, FindConstant(name).value)
  {
    var name := svalue[..|svalue| - 1];
    if IdentTerminator(c) then
      (match FindFunction(name)
       case Some(fu) => Ok(FunctionToken(name, fu))
       case None =>
         (match FindConstant(name)
          case Some(co) => Ok(ConstantToken(name, co))
          case None => Err(FunctionOrConstNotFound)))
    else Err(FunctionOrConst)
  }

  /** `Result<Token, _>` of a helper as the machine's `Result<Option<Token>, _>`. */
  function Found(res: Result<Token, LexErr>): (r: Result<Option<Token>, LexErr>)
    ensures res.Ok? <==> r.Ok?
    ensures r.Ok? ==> r.value == Some(res.value)
    ensures r.Err? ==> r.error == res.error
  {
    match res
    case Ok(t) => Ok(Some(t))
    case Err(e) => Err(e)
  }

  /** The states of the lexical machine. */
  datatype Lex =
    | Start | NumHexInit | NumSigBdp | NumSigAdp | NumExpSign | NumExpASign | NumExpVal | NumHex
    | Operator | CString | FuncConst

  /**
   * What the characters read so far in a state look like: `dot` is the
   * index of the decimal point (negative: none) and `ex` that of the
   * exponent mark once there is one.
   */
  ghost predicate Shape(step: Lex, buf: string, dot: int, ex: int) {
    match step
    case Start => buf == [] && dot < 0
    case NumHexInit => buf == "0" && dot < 0
    case NumSigBdp => dot < 0 && Mantissa(buf, dot) && buf != "0"
    case NumSigAdp => dot >= 0 && Mantissa(buf, dot)
    case NumExpSign =>
      0 <= ex == |buf| - 1 && IsExponentChar(buf[ex]) && Mantissa(buf[..ex], dot) && (dot >= 0 || buf[..ex] != "0")
    case NumExpASign =>
      0 <= ex == |buf| - 2 && IsExponentChar(buf[ex]) && (buf[ex + 1] == '+' || buf[ex + 1] == '-') &&
      Mantissa(buf[..ex], dot) && (dot >= 0 || buf[..ex] != "0")
    case NumExpVal => 0 <= ex && FloatShape(buf, dot, ex)
    case NumHex => |buf| >= 2 && buf[0] == '0' && IsHexaPrefix(buf[1]) && AllHexDigits(buf[2..])
    case Operator => |buf| == 1 && IsOperatorChar(buf[0])
    case CString => |buf| >= 1 && buf[0] == '"' && NoQuote(buf[1..])
    case FuncConst => |buf| >= 1 && AllAlphabetic(buf)
  }

  /** The value a number token carries, by the form of its lexeme. */
  ghost predicate NumberValue(t: Token, fo: FloatOps) {
    (t.val.IVal? && |t.text| >= 1 && AllDigits(t.text) && t.val.i == DecimalValue(t.text)) ||
    (t.val.IVal? && HexLexeme(t.text) && t.val.i == HexValue(t.text[2..])) ||
    (t.val.FVal? && FloatLexeme(t.text) && fo.parse(t.text) == Some(t.val.f))
  }

  /** The look-ahead the machine sees at `next`: blanks and the end of input read as a space. */
  function Follow(s: string, next: nat): (la: char)
    requires next <= |s|
    ensures la == ' ' || (next < |s| && la == s[next] && !IsBlank(la))
    ensures next < |s| && !IsBlank(s[next]) ==> la == s[next]
    ensures next == |s| || IsBlank(s[next]) ==> la == ' '
  {
    if next == |s| || IsBlank(s[next]) then ' ' else s[next]
  }

  /**
   * What a token that the look-ahead `la` ended satisfies: its lexeme has
   * the form its kind calls for, `la` may follow that kind, and it carries
   * the value, callback and arity of the catalog entry its name selects.
   */
  ghost predicate Lexeme(t: Token, la: char, fo: FloatOps) {
    match t.kind
    case OPar => t == NewToken().(kind := OPar, text := "(")
    case CPar => t == NewToken().(kind := CPar, text := ")")
    case Separator => t == NewToken().(kind := Separator, text := ",")
    case Number => t == NumberToken(t.text, t.val) && NumberTerminator(la) && NumberValue(t, fo)
    case Function =>
      |t.text| >= 1 && AllAlphabetic(t.text) && IdentTerminator(la) &&
      FindFunction(t.text).Some? && t == FunctionToken(t.text, FindFunction(t.text).value)
    case Constant =>
      |t.text| >= 1 && AllAlphabetic(t.text) && IdentTerminator(la) &&
      FindFunction(t.text).None? && FindConstant(t.text).Some? && t == ConstantToken(t.text, FindConstant(t.text).value)
    case Operator =>
      FindOperator(t.text).Some? && t == OperatorToken(t.text, FindOperator(t.text).value) &&
      ((|t.text| == 2 && IsOperatorChar(t.text[0]) && IsOperatorChar(t.text[1])) ||
       (|t.text| == 1 && IsOperatorChar(t.text[0]) && !IsOperatorChar(la) && la != '"'))
    case CString =>
      |t.text| >= 2 && t.text[0] == '"' && t.text[|t.text| - 1] == '"' && NoQuote(t.text[1..|t.text| - 1]) &&
      t == NewToken().(kind := TokKind.CString, text := t.text)
    case Void => false
  }

  lemma {:induction false} SkipBlankAt(s: string, pos: nat, st: nat)
    requires pos <= st <= |s|
    requires forall k :: pos <= k < st ==> IsBlank(s[k])
    requires st < |s| ==> !IsBlank(s[st])
    ensures SkipBlank(s, pos) == st
    decreases st - pos
  {
    if pos < st {
      SkipBlankAt(s, pos + 1, st);
    }
  }

  /** `0x` followed by hex digits loses exactly its prefix to `trim_start_matches`. */
  lemma HexPrefixTrimmed(t: string)
    requires |t| >= 2 && t[0] == '0' && t[1] == 'x' && AllHexDigits(t[2..])
    ensures TrimHexPrefix(t) == t[2..]
  {
    var h := t[2..];
    if |h| >= 2 {
      assert IsHexDigit(h[1]);
    }
  }

  /** `0X...` keeps its capital prefix, which no hexadecimal parse accepts. */
  lemma CapitalHexPrefixRejected(t: string)
    ensures |t| >= 2 && t[0] == '0' && t[1] == 'X' ==> ParseHexI64(TrimHexPrefix(t)) == None
  {
    if |t| >= 2 && t[0] == '0' && t[1] == 'X' {
      assert TrimHexPrefix(t) == t;
      assert !IsHexDigit(t[1]);
    }
  }

  /** One move of the machine: go on in a state, or stop with a result, consuming the look-ahead or not. */
  datatype Move = Go(step: Lex) | Emit(res: Result<Option<Token>, LexErr>, consume: bool)

  /**
   * The state changes of `get_token`: the state the machine goes on in after
   * reading `c` in `step`, or None when `c` ends (or breaks) the token.
   */
  function Advance(step: Lex, c: char): (n: Option<Lex>)
    ensures n.Some? ==> n.value != Start
    ensures n.Some? && step != Lex.CString ==> !IsBlank(c)
    ensures step == Start ==> (n.Some? <==> StartChar(c) && c != '(' && c != ')' && c != ',')
    ensures step == Start && n.Some? ==>
      (IsOperatorChar(c) <==> n.value == Lex.Operator) && (c == '"' <==> n.value == Lex.CString) &&
      (c == '0' <==> n.value == NumHexInit)
    ensures step != Start && n.Some? ==> n.value != Lex.Operator && (n.value == Lex.CString <==> step == Lex.CString)
    ensures step == NumHexInit && c == 'X' ==> n == Some(NumHex)
    ensures step == NumHex && n.Some? ==> n.value == NumHex
    ensures n.Some? && c == 'X' ==> step in {Start, NumHexInit, Lex.CString, FuncConst}
    ensures step == Lex.Operator ==> n.None?
  {
    match step
    case Start =>
      if c == '0' then Some(NumHexInit)
      else if IsDigit(c) then Some(NumSigBdp)
      else if c == '.' then Some(NumSigAdp)
      else if c == '"' then Some(Lex.CString)
      else if IsOperatorChar(c) then Some(Lex.Operator)
      else if IsAlphabetic(c) then Some(FuncConst)
      else None
    case NumHexInit =>
      if IsHexaPrefix(c) then Some(NumHex)
      else if IsDigit(c) then Some(NumSigBdp)
      else if c == '.' then Some(NumSigAdp)
      else None
    case NumSigBdp =>
      if IsDigit(c) then Some(NumSigBdp)
      else if c == '.' then Some(NumSigAdp)
      else if IsExponentChar(c) then Some(NumExpSign)
      else None
    case NumSigAdp =>
      if IsDigit(c) then Some(NumSigAdp)
      else if IsExponentChar(c) then Some(NumExpSign)
      else None
    case NumExpSign =>
      if IsDigit(c) then Some(NumExpVal)
      else if c == '+' || c == '-' then Some(NumExpASign)
      else None
    case NumExpASign =>
      if IsDigit(c) then Some(NumExpVal) else None
    case NumExpVal =>
      if IsDigit(c) then Some(NumExpVal) else None
    case NumHex =>
      if IsHexDigit(c) then Some(NumHex) else None
    case Operator => None
    case CString =>
      if c == '"' then None else Some(Lex.CString)
    case FuncConst =>
      if IsAlphabetic(c) then Some(FuncConst) else None
  }

  /**
   * What `get_token` returns when `c` ends the token in `step`: the token
   * the helper for that state builds, or the state's error. The look-ahead
   * is consumed by a parenthesis, a separator, a two-character operator and
   * a closing quote; every other token leaves it for the next call.
   */
  function Stop(step: Lex, buf: string, c: char, fo: FloatOps): (m: Move)
    requires Advance(step, c).None?
    ensures m.Emit? && m.res != Ok(None)
    ensures m.consume ==> !IsBlank(c)
    ensures step == Start ==> (m.res == Err(BadStart) <==> !StartChar(c))
    ensures m.res == Err(BadStart) ==> step == Start
    ensures step == Start && m.res.Ok? ==> m.consume
    ensures step == Lex.Operator && IsOperatorChar(c) ==> m == Emit(Found(GetTokenOperator(BadOperatorLong, buf + [c])), true)
    ensures step == Lex.Operator && c == '"' ==> m == Emit(Err(QuoteAfterOp), false)
    ensures step == NumHex && |buf| >= 2 && buf[0] == '0' && buf[1] == 'X' ==> m.res == Err(BadHex)
    ensures m.res.Ok? ==> m.res.value.value.text == if m.consume then buf + [c] else buf
    ensures step != Lex.CString && m.res.Err? ==> m.res.error == StopError(step, c)
    ensures step == Lex.CString ==> m.res.Ok?
  {
    var sv := buf + [c];
    match step
    case Start =>
      if c == '(' || c == ')' then Emit(Ok(Some(NewToken().(kind := if c == '(' then OPar else CPar, text := sv))), true)
      else if c == ',' then Emit(Ok(Some(NewToken().(kind := Separator, text := sv))), true)
      else Emit(Err(BadStart), false)
    case NumHexInit => Emit(Found(GetTokenNumber(c, Integer, BadHexInit, sv, fo)), false)
    case NumSigBdp => Emit(Found(GetTokenNumber(c, Integer, BadSigBdp, sv, fo)), false)
    case NumSigAdp => Emit(Found(GetTokenNumber(c, FloatNum, BadSigAdp, sv, fo)), false)
    case NumExpSign => Emit(Err(BadExpSign), false)
    case NumExpASign => Emit(Err(BadExpASign), false)
    case NumExpVal => Emit(Found(GetTokenNumber(c, FloatNum, BadExpVal, sv, fo)), false)
    case NumHex =>
      CapitalHexPrefixRejected(buf);
      Emit(Found(GetTokenNumber(c, Hexa, BadHex, sv, fo)), false)
    case Operator =>
      if IsOperatorChar(c) then Emit(Found(GetTokenOperator(BadOperatorLong, sv)), true)
      else if c == '"' then Emit(Err(QuoteAfterOp), false)
      else Emit(Found(GetTokenOperator(BadOperatorShort, buf)), false)
    case CString => Emit(Ok(Some(NewToken().(kind := TokKind.CString, text := sv))), true)
    case FuncConst => Emit(Found(GetTokenFuco(c, sv)), false)
  }

  /**
   * The error `get_token` reports when `c` ends the characters read in
   * `step` without a token: the code of the state, and for an operator or
   * an identifier the code of what went wrong.
   */
  function StopError(step: Lex, c: char): LexErr
    requires step != Lex.CString
  {
    match step
    case Start => BadStart
    case NumHexInit => BadHexInit
    case NumSigBdp => BadSigBdp
    case NumSigAdp => BadSigAdp
    case NumExpSign => BadExpSign
    case NumExpASign => BadExpASign
    case NumExpVal => BadExpVal
    case NumHex => BadHex
    case Operator =>
      if IsOperatorChar(c) then BadOperatorLong else if c == '"' then QuoteAfterOp else BadOperatorShort
    case FuncConst => if IdentTerminator(c) then FunctionOrConstNotFound else FunctionOrConst
  }

  /** One step of `get_token`'s loop on the character `c`. */
  function Feed(step: Lex, buf: string, c: char, fo: FloatOps): (m: Move)
    ensures m.Go? <==> Advance(step, c).Some?
    ensures m.Go? ==> m.step == Advance(step, c).value
    ensures m.Emit? ==> m == Stop(step, buf, c, fo)
  {
    match Advance(step, c)
    case Some(n) => Go(n)
    case None => Stop(step, buf, c, fo)
  }

  /** Where the decimal point is once `c` is read in `step`, `n` characters into the token. */
  function NextDot(step: Lex, c: char, n: nat, dot: int): int {
    if step == Start && c == '.' then 0
    else if (step == NumHexInit || step == NumSigBdp) && c == '.' then n
    else dot
  }

  /** Where the exponent mark is once `c` is read in `step`, `n` characters into the token. */
  function NextEx(step: Lex, c: char, n: nat, ex: int): int {
    if (step == NumSigBdp || step == NumSigAdp) && IsExponentChar(c) then n else ex
  }

  /** Every state change keeps the characters read in the shape of the new state. */
  lemma FeedKeepsShape(step: Lex, buf: string, c: char, dot: int, ex: int)
    requires Shape(step, buf, dot, ex)
    requires Advance(step, c).Some?
    ensures Shape(Advance(step, c).value, buf + [c], NextDot(step, c, |buf|, dot), NextEx(step, c, |buf|, ex))
  {
    match step
    case NumHexInit => MantissaKeepsShape(step, buf, c, dot, ex);
    case NumSigBdp => MantissaKeepsShape(step, buf, c, dot, ex);
    case NumSigAdp => MantissaKeepsShape(step, buf, c, dot, ex);
    case NumExpSign => ExponentKeepsShape(step, buf, c, dot, ex);
    case NumExpASign => ExponentKeepsShape(step, buf, c, dot, ex);
    case NumExpVal => ExponentKeepsShape(step, buf, c, dot, ex);
    case NumHex =>
      assert (buf + [c])[2..] == buf[2..] + [c];
    case CString =>
      assert (buf + [c])[1..] == buf[1..] + [c];
    case Start =>
      assert (buf + [c])[0] == c;
    case _ =>
  }

  lemma MantissaKeepsShape(step: Lex, buf: string, c: char, dot: int, ex: int)
    requires step == NumHexInit || step == NumSigBdp || step == NumSigAdp
    requires Shape(step, buf, dot, ex)
    requires Advance(step, c).Some?
    ensures Shape(Advance(step, c).value, buf + [c], NextDot(step, c, |buf|, dot), NextEx(step, c, |buf|, ex))
  {
    var sv := buf + [c];
    var next := Advance(step, c).value;
    assert sv[..|buf|] == buf;
    if step == NumSigAdp && next == NumSigAdp {
      assert sv[..dot] == buf[..dot];
      assert sv[dot + 1..] == buf[dot + 1..] + [c];
    }
  }

  lemma ExponentKeepsShape(step: Lex, buf: string, c: char, dot: int, ex: int)
    requires step == NumExpSign || step == NumExpASign || step == NumExpVal
    requires Shape(step, buf, dot, ex)
    requires Advance(step, c).Some?
    ensures Shape(Advance(step, c).value, buf + [c], NextDot(step, c, |buf|, dot), NextEx(step, c, |buf|, ex))
  {
    var sv := buf + [c];
    assert sv[..ex] == buf[..ex];
    var u := buf[ex + 1..];
    assert sv[ex + 1..] == u + [c];
    if step == NumExpASign || (step == NumExpVal && !AllDigits(u)) {
      assert (u + [c])[1..] == u[1..] + [c];
    }
  }

  /**
   * Every token a stopping move delivers is a well-formed lexeme of its
   * kind, ended by the look-ahead `la` when the move leaves it unread.
   */
  lemma StopLexeme(step: Lex, buf: string, c: char, dot: int, ex: int, fo: FloatOps, la: char)
    requires Shape(step, buf, dot, ex)
    requires Advance(step, c).None? && Stop(step, buf, c, fo).res.Ok?
    requires !Stop(step, buf, c, fo).consume ==> la == c
    ensures Lexeme(Stop(step, buf, c, fo).res.value.value, la, fo)
  {
    match step
    case NumHexInit => IntegerLexeme(step, buf, c, dot, ex, fo);
    case NumSigBdp => IntegerLexeme(step, buf, c, dot, ex, fo);
    case NumSigAdp => FloatLexemes(step, buf, c, dot, ex, fo);
    case NumExpVal => FloatLexemes(step, buf, c, dot, ex, fo);
    case NumHex => HexLexemes(buf, c, fo);
    case Operator => OperatorLexeme(buf, c, fo, la);
    case CString => StringLexeme(buf, c, fo, la);
    case FuncConst => IdentLexeme(buf, c, fo);
    case Start =>
    case NumExpSign =>
    case NumExpASign =>
  }

  lemma IntegerLexeme(step: Lex, buf: string, c: char, dot: int, ex: int, fo: FloatOps)
    requires step == NumHexInit || step == NumSigBdp
    requires Shape(step, buf, dot, ex)
    requires Advance(step, c).None? && Stop(step, buf, c, fo).res.Ok?
    ensures Lexeme(Stop(step, buf, c, fo).res.value.value, c, fo)
  {
    assert (buf + [c])[..|buf|] == buf;
    assert AllDigits(buf);
  }

  lemma FloatLexemes(step: Lex, buf: string, c: char, dot: int, ex: int, fo: FloatOps)
    requires step == NumSigAdp || step == NumExpVal
    requires Shape(step, buf, dot, ex)
    requires Advance(step, c).None? && Stop(step, buf, c, fo).res.Ok?
    ensures Lexeme(Stop(step, buf, c, fo).res.value.value, c, fo)
  {
    assert (buf + [c])[..|buf|] == buf;
    if step == NumSigAdp {
      assert FloatShape(buf, dot, -1);
    } else {
      assert FloatShape(buf, dot, ex);
    }
  }

  lemma HexLexemes(buf: string, c: char, fo: FloatOps)
    requires Shape(NumHex, buf, -1, -1)
    requires Advance(NumHex, c).None? && Stop(NumHex, buf, c, fo).res.Ok?
    ensures Lexeme(Stop(NumHex, buf, c, fo).res.value.value, c, fo)
  {
    assert (buf + [c])[..|buf|] == buf;
    CapitalHexPrefixRejected(buf);
    HexPrefixTrimmed(buf);
  }

  lemma OperatorLexeme(buf: string, c: char, fo: FloatOps, la: char)
    requires Shape(Lex.Operator, buf, -1, -1)
    requires Advance(Lex.Operator, c).None? && Stop(Lex.Operator, buf, c, fo).res.Ok?
    requires !Stop(Lex.Operator, buf, c, fo).consume ==> la == c
    ensures Lexeme(Stop(Lex.Operator, buf, c, fo).res.value.value, la, fo)
  {
  }

  lemma StringLexeme(buf: string, c: char, fo: FloatOps, la: char)
    requires Shape(Lex.CString, buf, -1, -1)
    requires Advance(Lex.CString, c).None? && Stop(Lex.CString, buf, c, fo).res.Ok?
    ensures Lexeme(Stop(Lex.CString, buf, c, fo).res.value.value, la, fo)
  {
    var t := Stop(Lex.CString, buf, c, fo).res.value.value;
    assert t.text[1..|t.text| - 1] == buf[1..];
  }

  lemma IdentLexeme(buf: string, c: char, fo: FloatOps)
    requires Shape(FuncConst, buf, -1, -1)
    requires Advance(FuncConst, c).None? && Stop(FuncConst, buf, c, fo).res.Ok?
    ensures Lexeme(Stop(FuncConst, buf, c, fo).res.value.value, c, fo)
  {
    assert (buf + [c])[..|buf|] == buf;
  }

  /** The states the machine is in after reading `w` from `step`, None once a character of `w` ends the token. */
  function Run(step: Lex, w: string): Option<Lex>
    decreases |w|
  {
    if w == [] then Some(step)
    else
      var p := Run(step, w[..|w| - 1]);
      if p.None? then None else Advance(p.value, w[|w| - 1])
  }

  lemma RunSnoc(step: Lex, w: string, c: char)
    ensures Run(step, w + [c]) == if Run(step, w).None? then None else Advance(Run(step, w).value, c)
  {
    assert (w + [c])[..|w|] == w;
  }

  /** Reading `u` then `v` is reading `v` in the state `u` leads to. */
  lemma {:induction false} RunAppend(step: Lex, u: string, v: string)
    requires Run(step, u).Some?
    ensures Run(step, u + v) == Run(Run(step, u).value, v)
    decreases |v|
  {
    if v == [] {
      assert u + v == u;
    } else {
      var p, c := v[..|v| - 1], v[|v| - 1];
      assert u + v == (u + p) + [c];
      assert v == p + [c];
      RunAppend(step, u, p);
      RunSnoc(step, u + p, c);
      RunSnoc(Run(step, u).value, p, c);
    }
  }

  /** Once a character ends the token, reading on changes nothing. */
  lemma {:induction false} RunStuck(step: Lex, u: string, v: string)
    requires Run(step, u).None?
    ensures Run(step, u + v).None?
    decreases |v|
  {
    if v == [] {
      assert u + v == u;
    } else {
      var p, c := v[..|v| - 1], v[|v| - 1];
      assert u + v == (u + p) + [c];
      RunStuck(step, u, p);
      RunSnoc(step, u + p, c);
    }
  }

  /** Digits read from the start: a lone `0` may still become hexadecimal, more digits are a decimal integer. */
  lemma {:induction false} RunDigits(w: string)
    requires |w| >= 1 && AllDigits(w)
    ensures Run(Start, w) == Some(if w == "0" then NumHexInit else NumSigBdp)
    decreases |w|
  {
    var p := w[..|w| - 1];
    if p != [] {
      assert AllDigits(p) by {
        forall k | 0 <= k < |p| ensures IsDigit(p[k]) {
          assert p[k] == w[k];
        }
      }
      RunDigits(p);
    }
  }

  /** A mantissa with a point is read to the state after the point. */
  lemma {:induction false} RunPointMantissa(m: string, dot: nat)
    requires Mantissa(m, dot)
    ensures Run(Start, m) == Some(NumSigAdp)
    decreases |m|
  {
    var p := m[..|m| - 1];
    if dot == |m| - 1 {
      assert p == m[..dot];
      if p != [] {
        RunDigits(p);
      }
    } else {
      assert p[..dot] == m[..dot];
      assert p[dot + 1..] == m[dot + 1..][..|p| - dot - 1];
      RunPointMantissa(p, dot);
    }
  }

  lemma RunMantissa(m: string, dot: int)
    requires Mantissa(m, dot) && (dot >= 0 || m != "0")
    ensures Run(Start, m) == Some(if dot >= 0 then NumSigAdp else NumSigBdp)
  {
    if dot >= 0 {
      RunPointMantissa(m, dot);
    } else {
      RunDigits(m);
    }
  }

  /** An exponent value read after the exponent mark. */
  lemma {:induction false} RunExponent(u: string)
    requires ExponentValue(u)
    ensures Run(NumExpSign, u) == Some(NumExpVal)
    decreases |u|
  {
    var p, c := u[..|u| - 1], u[|u| - 1];
    assert IsDigit(c) by {
      if !AllDigits(u) {
        assert c == u[1..][|u| - 2];
      }
    }
    if p == [] {
    } else if |p| == 1 && (p[0] == '+' || p[0] == '-') {
      assert p[..0] == [];
      assert Run(NumExpSign, p) == Some(NumExpASign);
    } else {
      assert ExponentValue(p) by {
        if AllDigits(u) {
          assert forall k | 0 <= k < |p| :: p[k] == u[k];
        } else {
          assert forall k | 0 <= k < |p[1..]| :: p[1..][k] == u[1..][k];
        }
      }
      RunExponent(p);
    }
  }

  lemma RunFloat(t: string, dot: int, ex: int)
    requires FloatShape(t, dot, ex)
    ensures Run(Start, t) == Some(if ex < 0 then NumSigAdp else NumExpVal)
  {
    if ex < 0 {
      RunPointMantissa(t, dot);
    } else {
      var m, u := t[..ex], t[ex + 1..];
      RunMantissa(m, dot);
      RunSnoc(Start, m, t[ex]);
      assert t == (m + [t[ex]]) + u;
      RunAppend(Start, m + [t[ex]], u);
      RunExponent(u);
    }
  }

  lemma {:induction false} RunHex(t: string)
    requires |t| >= 2 && t[0] == '0' && t[1] == 'x' && AllHexDigits(t[2..])
    ensures Run(Start, t) == Some(NumHex)
    decreases |t|
  {
    var p := t[..|t| - 1];
    if |t| == 2 {
      assert p[..0] == [];
      assert Run(Start, p) == Some(NumHexInit);
    } else {
      assert IsHexDigit(t[|t| - 1]) by {
        assert t[|t| - 1] == t[2..][|t| - 3];
      }
      assert AllHexDigits(p[2..]) by {
        assert forall k | 0 <= k < |p[2..]| :: p[2..][k] == t[2..][k];
      }
      RunHex(p);
    }
  }

  lemma {:induction false} RunIdent(w: string)
    requires |w| >= 1 && AllAlphabetic(w)
    ensures Run(Start, w) == Some(FuncConst)
    decreases |w|
  {
    var p := w[..|w| - 1];
    if p != [] {
      assert AllAlphabetic(p) by {
        assert forall k | 0 <= k < |p| :: p[k] == w[k];
      }
      RunIdent(p);
    }
  }

  lemma {:induction false} RunString(w: string)
    requires |w| >= 1 && w[0] == '"' && NoQuote(w[1..])
    ensures Run(Start, w) == Some(Lex.CString)
    decreases |w|
  {
    var p := w[..|w| - 1];
    if p != [] {
      assert w[|w| - 1] == w[1..][|w| - 2];
      assert NoQuote(p[1..]) by {
        assert forall k | 0 <= k < |p[1..]| :: p[1..][k] == w[1..][k];
      }
      RunString(p);
    }
  }

  /** Whether the character that ends `t` belongs to it: a parenthesis, a separator, a two-character operator, a closing quote. */
  predicate Consumes(t: Token) {
    t.kind == OPar || t.kind == CPar || t.kind == Separator || t.kind == TokKind.CString ||
    (t.kind == TokKind.Operator && |t.text| == 2)
  }

  /** How many characters of the lexeme of `t` the machine goes on through: all, or all but a last one it consumes. */
  function ReadLength(t: Token): nat {
    if Consumes(t) && |t.text| >= 1 then |t.text| - 1 else |t.text|
  }

  /** The character that ends `t`: the last of its lexeme when consumed, otherwise the look-ahead `la`. */
  function Ender(t: Token, la: char): char {
    if Consumes(t) && |t.text| >= 1 then t.text[|t.text| - 1] else la
  }

  /**
   * The machine goes on through the first `ReadLength(t)` characters of the
   * lexeme of `t`, outside a string literal unless `t` consumes its ender,
   * and the ender stops it.
   */
  ghost predicate ReadsThrough(t: Token, la: char) {
    var w := t.text[..ReadLength(t)];
    |t.text| >= 1 && Run(Start, w).Some? && (Consumes(t) || Run(Start, w).value != Lex.CString) &&
    Advance(Run(Start, w).value, Ender(t, la)).None? && (Consumes(t) ==> !IsBlank(Ender(t, la)))
  }

  /** Every well-formed lexeme is one the machine reads through. */
  lemma LexemeReadsThrough(t: Token, la: char, fo: FloatOps)
    requires Lexeme(t, la, fo)
    ensures ReadsThrough(t, la)
  {
    var w := t.text;
    match t.kind
    case OPar => PunctuationReads(t, la);
    case CPar => PunctuationReads(t, la);
    case Separator => PunctuationReads(t, la);
    case Number => NumberReads(t, la, fo);
    case Function => IdentReads(t, la);
    case Constant => IdentReads(t, la);
    case Operator => OperatorReads(t, la);
    case CString => StringReads(t, la);
  }

  lemma PunctuationReads(t: Token, la: char)
    requires t.kind == OPar || t.kind == CPar || t.kind == Separator
    requires t.text == "(" || t.text == ")" || t.text == ","
    ensures ReadsThrough(t, la)
  {
    assert t.text[..0] == [];
  }

  lemma NumberReads(t: Token, la: char, fo: FloatOps)
    requires t.kind == Number && NumberTerminator(la) && NumberValue(t, fo)
    ensures ReadsThrough(t, la)
  {
    var w := t.text;
    if t.val.IVal? && |w| >= 1 && AllDigits(w) && t.val.i == DecimalValue(w) {
      RunDigits(w);
    } else if t.val.IVal? && HexLexeme(w) && t.val.i == HexValue(w[2..]) {
      RunHex(w);
    } else {
      var dot: int, ex: int :| FloatShape(w, dot, ex);
      RunFloat(w, dot, ex);
    }
    NumberStateReads(t, la, Run(Start, w).value);
  }

  /** A number read through to a state that accepts it is ended by any number terminator. */
  lemma NumberStateReads(t: Token, la: char, q: Lex)
    requires t.kind == Number && |t.text| >= 1 && NumberTerminator(la) && Run(Start, t.text) == Some(q)
    requires q == NumHexInit || q == NumSigBdp || q == NumSigAdp || q == NumExpVal || q == NumHex
    ensures ReadsThrough(t, la)
  {
    assert t.text[..|t.text|] == t.text;
  }

  lemma IdentReads(t: Token, la: char)
    requires t.kind == Function || t.kind == Constant
    requires |t.text| >= 1 && AllAlphabetic(t.text) && IdentTerminator(la)
    ensures ReadsThrough(t, la)
  {
    assert t.text[..|t.text|] == t.text;
    RunIdent(t.text);
  }

  lemma OperatorReads(t: Token, la: char)
    requires t.kind == TokKind.Operator
    requires (|t.text| == 2 && IsOperatorChar(t.text[0]) && IsOperatorChar(t.text[1])) ||
             (|t.text| == 1 && IsOperatorChar(t.text[0]) && !IsOperatorChar(la) && la != '"')
    ensures ReadsThrough(t, la)
  {
    var w := t.text;
    assert w[..1][..0] == [];
    assert Run(Start, w[..1]) == Some(Lex.Operator);
    assert |w| == 1 ==> w[..|w|] == w[..1];
  }

  lemma StringReads(t: Token, la: char)
    requires t.kind == TokKind.CString
    requires |t.text| >= 2 && t.text[0] == '"' && t.text[|t.text| - 1] == '"' && NoQuote(t.text[1..|t.text| - 1])
    ensures ReadsThrough(t, la)
  {
    var w := t.text;
    var p := w[..|w| - 1];
    assert p[1..] == w[1..|w| - 1];
    RunString(p);
  }

  /**
   * Every well-formed lexeme is one the machine builds where it stops: in
   * the state `q` the characters `buf` it goes on through lead to, on the
   * character `c` that ends it.
   */
  lemma LexemeBuilt(t: Token, la: char, q: Lex, buf: string, c: char, fo: FloatOps)
    requires Lexeme(t, la, fo) && buf == t.text[..ReadLength(t)] && c == Ender(t, la)
    requires Run(Start, buf) == Some(q) && Advance(q, c).None?
    ensures Stop(q, buf, c, fo) == Emit(Ok(Some(t)), Consumes(t))
  {
    match t.kind
    case OPar => PunctuationBuilt(t, la, q, buf, c, fo);
    case CPar => PunctuationBuilt(t, la, q, buf, c, fo);
    case Separator => PunctuationBuilt(t, la, q, buf, c, fo);
    case Number => NumberBuilt(t, la, q, buf, c, fo);
    case Function => IdentBuilt(t, la, q, buf, c, fo);
    case Constant => IdentBuilt(t, la, q, buf, c, fo);
    case Operator => OperatorBuilt(t, la, q, buf, c, fo);
    case CString => StringBuilt(t, la, q, buf, c, fo);
  }

  lemma PunctuationBuilt(t: Token, la: char, q: Lex, buf: string, c: char, fo: FloatOps)
    requires t.kind == OPar || t.kind == CPar || t.kind == Separator
    requires Lexeme(t, la, fo) && buf == t.text[..ReadLength(t)] && c == Ender(t, la)
    requires Run(Start, buf) == Some(q) && Advance(q, c).None?
    ensures Stop(q, buf, c, fo) == Emit(Ok(Some(t)), true)
  {
    assert buf == [];
    assert buf + [c] == t.text;
  }

  lemma NumberBuilt(t: Token, la: char, q: Lex, buf: string, c: char, fo: FloatOps)
    requires t.kind == Number
    requires Lexeme(t, la, fo) && buf == t.text[..ReadLength(t)] && c == Ender(t, la)
    requires Run(Start, buf) == Some(q) && Advance(q, c).None?
    ensures Stop(q, buf, c, fo) == Emit(Ok(Some(t)), false)
  {
    var w := t.text;
    WholeRead(t, la, buf, c);
    assert (w + [c])[..|w|] == w;
    if t.val.IVal? && |w| >= 1 && AllDigits(w) && t.val.i == DecimalValue(w) {
      RunDigits(w);
    } else if t.val.IVal? && HexLexeme(w) && t.val.i == HexValue(w[2..]) {
      RunHex(w);
      HexPrefixTrimmed(w);
    } else {
      var dot: int, ex: int :| FloatShape(w, dot, ex);
      RunFloat(w, dot, ex);
    }
  }

  lemma IdentBuilt(t: Token, la: char, q: Lex, buf: string, c: char, fo: FloatOps)
    requires t.kind == Function || t.kind == Constant
    requires Lexeme(t, la, fo) && buf == t.text[..ReadLength(t)] && c == Ender(t, la)
    requires Run(Start, buf) == Some(q) && Advance(q, c).None?
    ensures Stop(q, buf, c, fo) == Emit(Ok(Some(t)), false)
  {
    IdentRead(t, la, buf, c, fo);
    IdentStop(buf, c, fo);
  }

  /** What the machine reads of an identifier lexeme: all of it, in the identifier state. */
  lemma IdentRead(t: Token, la: char, buf: string, c: char, fo: FloatOps)
    requires t.kind == Function || t.kind == Constant
    requires Lexeme(t, la, fo) && buf == t.text[..ReadLength(t)] && c == Ender(t, la)
    ensures buf == t.text && |buf| >= 1 && Run(Start, buf) == Some(FuncConst) && IdentTerminator(c)
    ensures FindFunction(buf).Some? || FindConstant(buf).Some?
    ensures t == if FindFunction(buf).Some? then FunctionToken(buf, FindFunction(buf).value)
                 else ConstantToken(buf, FindConstant(buf).value)
  {
    WholeRead(t, la, buf, c);
    RunIdent(buf);
  }

  /** A token that does not consume its ender is read whole, and ended by the look-ahead. */
  lemma WholeRead(t: Token, la: char, buf: string, c: char)
    requires !Consumes(t) && buf == t.text[..ReadLength(t)] && c == Ender(t, la)
    ensures buf == t.text && c == la
  {
  }

  /** A name of the catalogs, ended by a terminator, is the function or else the constant it names. */
  lemma IdentStop(buf: string, c: char, fo: FloatOps)
    requires |buf| >= 1 && IdentTerminator(c) && Advance(FuncConst, c).None?
    requires FindFunction(buf).Some? || FindConstant(buf).Some?
    ensures Stop(FuncConst, buf, c, fo) ==
      Emit(Ok(Some(if FindFunction(buf).Some? then FunctionToken(buf, FindFunction(buf).value)
                   else ConstantToken(buf, FindConstant(buf).value))), false)
  {
    IdentLookup(buf, c);
    IdentStopFound(buf, c, fo);
  }

  /** `get_token_fuco` on a name of the catalogs and its terminator finds the function, or else the constant. */
  lemma IdentLookup(buf: string, c: char)
    requires |buf| >= 1 && IdentTerminator(c)
    requires FindFunction(buf).Some? || FindConstant(buf).Some?
    ensures GetTokenFuco(c, buf + [c]) ==
      Ok(if FindFunction(buf).Some? then FunctionToken(buf, FindFunction(buf).value)
         else ConstantToken(buf, FindConstant(buf).value))
  {
    assert (buf + [c])[..|buf|] == buf;
  }

  /** In the identifier state the machine hands the name and its ender to `get_token_fuco`. */
  lemma IdentStopFound(buf: string, c: char, fo: FloatOps)
    requires |buf| >= 1 && Advance(FuncConst, c).None?
    ensures Stop(FuncConst, buf, c, fo) == Emit(Found(GetTokenFuco(c, buf + [c])), false)
  {
  }

  lemma OperatorBuilt(t: Token, la: char, q: Lex, buf: string, c: char, fo: FloatOps)
    requires t.kind == TokKind.Operator
    requires Lexeme(t, la, fo) && buf == t.text[..ReadLength(t)] && c == Ender(t, la)
    requires Run(Start, buf) == Some(q) && Advance(q, c).None?
    ensures Stop(q, buf, c, fo) == Emit(Ok(Some(t)), |t.text| == 2)
  {
    OperatorRead(t, la, buf, c);
    if |t.text| == 2 {
      OperatorPairStop(t, buf, c, fo);
    } else {
      OperatorSingleStop(t, buf, c, fo);
    }
  }

  /** What the machine reads of an operator lexeme: its first character, in the operator state. */
  lemma OperatorRead(t: Token, la: char, buf: string, c: char)
    requires t.kind == TokKind.Operator && buf == t.text[..ReadLength(t)] && c == Ender(t, la)
    requires (|t.text| == 2 && IsOperatorChar(t.text[0]) && IsOperatorChar(t.text[1])) ||
             (|t.text| == 1 && IsOperatorChar(t.text[0]) && !IsOperatorChar(la) && la != '"')
    ensures Run(Start, buf) == Some(Lex.Operator) && |buf| == 1
    ensures (|t.text| == 2 && buf + [c] == t.text && IsOperatorChar(c)) ||
            (|t.text| == 1 && buf == t.text && !IsOperatorChar(c) && c != '"')
  {
    assert buf[..0] == [];
    if |t.text| == 2 {
      assert buf + [c] == t.text;
    }
  }

  /** Two operator characters that name an operator are its token. */
  lemma OperatorPairStop(t: Token, buf: string, c: char, fo: FloatOps)
    requires buf + [c] == t.text && |buf| == 1 && IsOperatorChar(c)
    requires FindOperator(t.text).Some? && t == OperatorToken(t.text, FindOperator(t.text).value)
    ensures Stop(Lex.Operator, buf, c, fo) == Emit(Ok(Some(t)), true)
  {
  }

  /** One operator character that names an operator, and is not followed by another or by a quote, is its token. */
  lemma OperatorSingleStop(t: Token, buf: string, c: char, fo: FloatOps)
    requires buf == t.text && |buf| == 1 && !IsOperatorChar(c) && c != '"'
    requires FindOperator(t.text).Some? && t == OperatorToken(t.text, FindOperator(t.text).value)
    ensures Stop(Lex.Operator, buf, c, fo) == Emit(Ok(Some(t)), false)
  {
  }

  lemma StringBuilt(t: Token, la: char, q: Lex, buf: string, c: char, fo: FloatOps)
    requires t.kind == TokKind.CString
    requires Lexeme(t, la, fo) && buf == t.text[..ReadLength(t)] && c == Ender(t, la)
    requires Run(Start, buf) == Some(q) && Advance(q, c).None?
    ensures Stop(q, buf, c, fo) == Emit(Ok(Some(t)), true)
  {
    var w := t.text;
    assert buf[1..] == w[1..|w| - 1];
    RunString(buf);
    assert buf + [c] == w;
  }

  /** `t` is a token of `s` from `st` to `n`: its lexeme is that text and what follows may end it. */
  ghost predicate Spans(s: string, st: nat, t: Token, n: nat, fo: FloatOps) {
    st < n <= |s| && t.text == s[st..n] && Lexeme(t, Follow(s, n), fo)
  }

  /** A string literal opens at `st` and no quote closes it. */
  predicate Unclosed(s: string, st: nat) {
    st < |s| && s[st] == '"' && NoQuote(s[st + 1..])
  }

  /** The character the loop feeds in `step` at `i`: the raw one inside a string literal, otherwise the look-ahead. */
  function Fed(s: string, i: nat, step: Lex): char
    requires i <= |s|
  {
    if step == Lex.CString && i < |s| then s[i] else Follow(s, i)
  }

  /**
   * Reading from `st`, the machine is outside any string literal at `i`
   * and the look-ahead there ends the token.
   */
  ghost predicate StopsAt(s: string, st: nat, i: nat) {
    st <= i <= |s| && Run(Start, s[st..i]).Some? && Run(Start, s[st..i]).value != Lex.CString &&
    Advance(Run(Start, s[st..i]).value, Follow(s, i)).None?
  }

  /**
   * The machine reading from `st` meets a token of `s` from `st` to `n`
   * where the token says: before the token's ender it goes on, and on the
   * ender it stops.
   */
  lemma SpanStops(s: string, st: nat, t: Token, n: nat, i: nat, step: Lex, fo: FloatOps)
    requires Spans(s, st, t, n, fo)
    requires st <= i <= |s| && Run(Start, s[st..i]) == Some(step)
    ensures i <= st + ReadLength(t)
    ensures Advance(step, Fed(s, i, step)).None? <==> i == st + ReadLength(t)
  {
    LexemeReadsThrough(t, Follow(s, n), fo);
    MachineMeetsSpan(s, st, t, n, i, step);
  }

  lemma MachineMeetsSpan(s: string, st: nat, t: Token, n: nat, i: nat, step: Lex)
    requires st < n <= |s| && t.text == s[st..n] && ReadsThrough(t, Follow(s, n))
    requires st <= i <= |s| && Run(Start, s[st..i]) == Some(step)
    ensures i <= st + ReadLength(t)
    ensures Advance(step, Fed(s, i, step)).None? <==> i == st + ReadLength(t)
  {
    SpanEnd(s, st, t, n);
    StopPoint(s, st, st + ReadLength(t), i, step);
  }

  /**
   * A run from `st` that goes on up to `e` and stops there stops nowhere
   * else: before `e` it goes on, and past `e` there is no run.
   */
  lemma StopPoint(s: string, st: nat, e: nat, i: nat, step: Lex)
    requires HaltsAt(s, st, e)
    requires st <= i <= |s| && Run(Start, s[st..i]) == Some(step)
    ensures i <= e && (Advance(step, Fed(s, i, step)).None? <==> i == e)
  {
    if i < e {
      RunGoesOn(s, st, e, i, step);
    } else if i > e {
      RunEnds(s, st, e, i);
    }
  }

  /** The machine reading `s` from `st` goes on up to `e` and stops there. */
  ghost predicate HaltsAt(s: string, st: nat, e: nat) {
    st <= e <= |s| && Run(Start, s[st..e]).Some? &&
    var q := Run(Start, s[st..e]).value;
    Advance(q, Fed(s, e, q)).None? && (e < |s| ==> Advance(q, s[e]).None?)
  }

  /** The machine stops on a token of `s` after its first `ReadLength` characters, on its ender. */
  lemma SpanEnd(s: string, st: nat, t: Token, n: nat)
    requires st < n <= |s| && t.text == s[st..n] && ReadsThrough(t, Follow(s, n))
    ensures HaltsAt(s, st, st + ReadLength(t)) && t.text[..ReadLength(t)] == s[st..st + ReadLength(t)]
    ensures var e := st + ReadLength(t); Fed(s, e, Run(Start, s[st..e]).value) == Ender(t, Follow(s, n))
  {
    var w, k := t.text, ReadLength(t);
    var e := st + k;
    assert w[..k] == s[st..e];
    if Consumes(t) {
      assert s[e] == w[|w| - 1];
    }
  }

  /** Where the machine stops on a token of `s`, it has read the token's characters and meets its ender. */
  lemma ReadMeets(s: string, st: nat, t: Token, n: nat, i: nat, step: Lex, c: char, la: char)
    requires st < n <= |s| && t.text == s[st..n] && la == Follow(s, n) && ReadsThrough(t, la)
    requires i == st + ReadLength(t) && Run(Start, s[st..i]) == Some(step) && c == Fed(s, i, step)
    ensures s[st..i] == t.text[..ReadLength(t)] && c == Ender(t, la) && n == if Consumes(t) then i + 1 else i
  {
    SpanEnd(s, st, t, n);
  }

  /**
   * A machine that reads from the start of a token and stops builds that
   * token, and leaves the iterator where the token ends.
   */
  lemma MachineBuildsSpan(s: string, st: nat, t: Token, n: nat, i: nat, step: Lex, c: char, fo: FloatOps)
    requires Spans(s, st, t, n, fo)
    requires st <= i <= |s| && Run(Start, s[st..i]) == Some(step) && c == Fed(s, i, step) && Advance(step, c).None?
    ensures Stop(step, s[st..i], c, fo) == Emit(Ok(Some(t)), Consumes(t))
    ensures n == if Consumes(t) then i + 1 else i
  {
    SpanStops(s, st, t, n, i, step, fo);
    ReadBuilds(s, st, t, n, i, step, c, Follow(s, n), fo);
  }

  /** Read up to where it stops, a well-formed lexeme of `s` is built. */
  lemma ReadBuilds(s: string, st: nat, t: Token, n: nat, i: nat, step: Lex, c: char, la: char, fo: FloatOps)
    requires st < n <= |s| && t.text == s[st..n] && la == Follow(s, n) && Lexeme(t, la, fo)
    requires i == st + ReadLength(t) && Run(Start, s[st..i]) == Some(step) && c == Fed(s, i, step) && Advance(step, c).None?
    ensures Stop(step, s[st..i], c, fo) == Emit(Ok(Some(t)), Consumes(t))
    ensures n == if Consumes(t) then i + 1 else i
  {
    LexemeReadsThrough(t, la, fo);
    ReadMeets(s, st, t, n, i, step, c, la);
    LexemeBuilt(t, la, step, s[st..i], c, fo);
  }

  /** Where a token ends, the machine reading it is still going. */
  lemma SpanRun(s: string, st: nat, t: Token, n: nat, fo: FloatOps)
    requires Spans(s, st, t, n, fo)
    ensures var e := st + ReadLength(t); e <= |s| && Run(Start, s[st..e]).Some?
  {
    LexemeReadsThrough(t, Follow(s, n), fo);
    ReadsThroughRun(s, st, t, n);
  }

  lemma ReadsThroughRun(s: string, st: nat, t: Token, n: nat)
    requires st < n <= |s| && t.text == s[st..n] && ReadsThrough(t, Follow(s, n))
    ensures var e := st + ReadLength(t); e <= |s| && Run(Start, s[st..e]).Some?
  {
    assert t.text[..ReadLength(t)] == s[st..st + ReadLength(t)];
  }

  /** Before the point where a run stops, every character keeps it going. */
  lemma RunGoesOn(s: string, st: nat, e: nat, i: nat, step: Lex)
    requires st <= i < e <= |s| && Run(Start, s[st..e]).Some? && Run(Start, s[st..i]) == Some(step)
    ensures Advance(step, s[i]).Some?
  {
    assert s[st..e][..i + 1 - st] == s[st..i + 1];
    RunPrefix(Start, s[st..e], i + 1 - st);
    var v := s[st..i + 1];
    assert v[..|v| - 1] == s[st..i] && v[|v| - 1] == s[i];
  }

  /** Past a character that ends the run, there is no run. */
  lemma RunEnds(s: string, st: nat, e: nat, i: nat)
    requires st <= e < i <= |s| && Run(Start, s[st..e]).Some? && Advance(Run(Start, s[st..e]).value, s[e]).None?
    ensures Run(Start, s[st..i]).None?
  {
    var w := s[st..i];
    assert w[..e - st] == s[st..e];
    RunStopsInside(Start, w, e - st);
  }

  lemma {:induction false} RunStopsInside(step: Lex, w: string, j: nat)
    requires j < |w| && Run(step, w[..j]).Some? && Advance(Run(step, w[..j]).value, w[j]).None?
    ensures Run(step, w).None?
    decreases |w|
  {
    var p := w[..|w| - 1];
    if j < |w| - 1 {
      assert p[..j] == w[..j];
      RunStopsInside(step, p, j);
    } else {
      assert p == w[..j];
    }
  }

  /** A run that reads `w` through reads every prefix of it. */
  lemma RunPrefix(step: Lex, w: string, j: nat)
    requires j <= |w| && Run(step, w).Some?
    ensures Run(step, w[..j]).Some?
  {
    assert w == w[..j] + w[j..];
    if Run(step, w[..j]).None? {
      RunStuck(step, w[..j], w[j..]);
    }
  }

  /** Two tokens of `s` from the same place are the same token, ending at the same place. */
  lemma SpanUnique(s: string, st: nat, t1: Token, n1: nat, t2: Token, n2: nat, fo: FloatOps)
    requires Spans(s, st, t1, n1, fo) && Spans(s, st, t2, n2, fo)
    ensures t1 == t2 && n1 == n2
  {
    SpanRun(s, st, t1, n1, fo);
    var e := st + ReadLength(t1);
    var q := Run(Start, s[st..e]).value;
    SpanStops(s, st, t1, n1, e, q, fo);
    MachineBuildsSpan(s, st, t1, n1, e, q, Fed(s, e, q), fo);
    MachineBuildsSpan(s, st, t2, n2, e, q, Fed(s, e, q), fo);
  }

  /** The machine stops outside a string literal at one place only. */
  lemma StopsAtUnique(s: string, st: nat, i1: nat, i2: nat)
    requires StopsAt(s, st, i1) && StopsAt(s, st, i2)
    ensures i1 == i2
  {
    if i1 < i2 {
      StopsBefore(s, st, i1, i2);
    } else if i2 < i1 {
      StopsBefore(s, st, i2, i1);
    }
  }

  lemma StopsBefore(s: string, st: nat, i: nat, j: nat)
    requires StopsAt(s, st, i) && i < j <= |s|
    ensures Run(Start, s[st..j]).None?
  {
    assert Advance(Run(Start, s[st..i]).value, s[i]).None?;
    RunEnds(s, st, i, j);
  }

  /**
   * Reading from the first non-blank character `st` of `s` fails with `e`:
   * no token begins there and no string literal is left open, and `e` is
   * the error of the state the machine stops in, for what ends it.
   */
  ghost predicate Fails(s: string, pos: nat, e: LexErr, fo: FloatOps)
    requires pos <= |s|
  {
    var st := SkipBlank(s, pos);
    st < |s| && !Unclosed(s, st) && (forall t: Token, n: nat :: !Spans(s, st, t, n, fo)) &&
    exists i: nat :: StopsAt(s, st, i) && e == StopError(Run(Start, s[st..i]).value, Follow(s, i))
  }

  /** Two operator characters in a row are looked up together, and one before a quote is an error. */
  ghost predicate OperatorClause(s: string, st: nat, r: Result<Option<Token>, LexErr>, next: nat) {
    (st + 1 < |s| && IsOperatorChar(s[st]) && IsOperatorChar(s[st + 1]) ==>
       (r.Ok? && r.value.Some? && r.value.value.kind == TokKind.Operator && next == st + 2) || r == Err(BadOperatorLong)) &&
    (st + 1 < |s| && IsOperatorChar(s[st]) && s[st + 1] == '"' ==> r == Err(QuoteAfterOp))
  }

  /**
   * The outcome of reading a token of `s` from `pos` that left the iterator
   * at `next`. From the first non-blank character `st`: the token that
   * begins there and where it ends, if there is one; no token exactly when
   * only blanks or an unclosed string literal remain; otherwise the error
   * of the state the machine stops in. Besides, `BadStart` exactly when
   * `st` cannot begin a token, the operator rules, and `0X` (capital)
   * never a number.
   */
  ghost predicate Delivered(s: string, pos: nat, r: Result<Option<Token>, LexErr>, next: nat, fo: FloatOps)
    requires pos <= next <= |s|
  {
    var st := SkipBlank(s, pos);
    (r.Ok? && r.value.Some? ==> Spans(s, st, r.value.value, next, fo)) &&
    (forall t: Token, n: nat :: Spans(s, st, t, n, fo) ==> r == Ok(Some(t)) && next == n) &&
    (r == Ok(None) <==> st == |s| || Unclosed(s, st)) &&
    (r == Ok(None) ==> next == |s|) &&
    (r.Err? ==> Fails(s, pos, r.error, fo)) &&
    (r == Err(BadStart) <==> st < |s| && !StartChar(s[st])) &&
    OperatorClause(s, st, r, next) &&
    (st + 1 < |s| && s[st] == '0' && s[st + 1] == 'X' ==> r == Err(BadHex))
  }

  /** Only one outcome is `Delivered`: the token and where it ends, no token, or one error. */
  lemma DeliveredUnique(s: string, pos: nat, r1: Result<Option<Token>, LexErr>, n1: nat,
                        r2: Result<Option<Token>, LexErr>, n2: nat, fo: FloatOps)
    requires pos <= n1 <= |s| && pos <= n2 <= |s|
    requires Delivered(s, pos, r1, n1, fo) && Delivered(s, pos, r2, n2, fo)
    ensures r1 == r2 && (r1.Ok? ==> n1 == n2)
  {
    if r1.Err? && r2.Err? {
      FailsUnique(s, pos, r1.error, r2.error, fo);
    }
  }

  /** Reading fails with one error only. */
  lemma FailsUnique(s: string, pos: nat, e1: LexErr, e2: LexErr, fo: FloatOps)
    requires pos <= |s| && Fails(s, pos, e1, fo) && Fails(s, pos, e2, fo)
    ensures e1 == e2
  {
    var st := SkipBlank(s, pos);
    var i1: nat :| StopsAt(s, st, i1) && e1 == StopError(Run(Start, s[st..i1]).value, Follow(s, i1));
    var i2: nat :| StopsAt(s, st, i2) && e2 == StopError(Run(Start, s[st..i2]).value, Follow(s, i2));
    StopsAtUnique(s, st, i1, i2);
  }

  /** On "12" the machine delivers the integer 12, which ends the text. */
  lemma DeliversInteger(r: Result<Option<Token>, LexErr>, next: nat, fo: FloatOps)
    requires next <= 2 && Delivered("12", 0, r, next, fo)
    ensures r == Ok(Some(NumberToken("12", IVal(12)))) && next == 2
  {
    var s, t := "12", NumberToken("12", IVal(12));
    assert SkipBlank(s, 0) == 0;
    assert s[0..2] == s;
    assert DecimalValue(s) == 12 by {
      assert s[..1] == "1";
    }
    assert Spans(s, 0, t, 2, fo);
  }

  /**
   * Where the machine, reading from the first non-blank character, stops
   * outside a string literal in a state that fails, the outcome is that
   * state's error.
   */
  lemma DeliveredStops(s: string, pos: nat, r: Result<Option<Token>, LexErr>, next: nat, i: nat, fo: FloatOps)
    requires pos <= next <= |s| && Delivered(s, pos, r, next, fo)
    requires var st := SkipBlank(s, pos);
      st < |s| && StopsAt(s, st, i) && Stop(Run(Start, s[st..i]).value, s[st..i], Follow(s, i), fo).res.Err?
    ensures var st := SkipBlank(s, pos);
      r == Stop(Run(Start, s[st..i]).value, s[st..i], Follow(s, i), fo).res
  {
    var st := SkipBlank(s, pos);
    var q := Run(Start, s[st..i]).value;
    if r.Ok? && r.value.Some? {
      MachineBuildsSpan(s, st, r.value.value, next, i, q, Follow(s, i), fo);
    } else if r.Ok? {
      StopsOutsideLiteral(s, st, i);
    } else {
      var i': nat :| StopsAt(s, st, i') && r.error == StopError(Run(Start, s[st..i']).value, Follow(s, i'));
      StopsAtUnique(s, st, i, i');
    }
  }

  /** A machine that stops outside a string literal did not begin one. */
  lemma StopsOutsideLiteral(s: string, st: nat, i: nat)
    requires StopsAt(s, st, i) && st < |s|
    ensures !Unclosed(s, st)
  {
    if st < i && s[st] == '"' && NoQuote(s[st + 1..]) {
      assert s[st..i][1..] == s[st + 1..][..i - st - 1];
      RunString(s[st..i]);
    }
  }

  /** No token begins where a string literal opens that no quote closes. */
  lemma UnclosedNoSpan(s: string, st: nat, t: Token, n: nat, fo: FloatOps)
    requires Unclosed(s, st)
    ensures !Spans(s, st, t, n, fo)
  {
    if Spans(s, st, t, n, fo) {
      UnclosedRuns(s, st);
      SpanStops(s, st, t, n, |s|, Lex.CString, fo);
    }
  }

  /** The machine reading an unclosed literal is still inside it at the end of the text. */
  lemma UnclosedRuns(s: string, st: nat)
    requires Unclosed(s, st)
    ensures Run(Start, s[st..|s|]) == Some(Lex.CString)
  {
    assert s[st..|s|][1..] == s[st + 1..];
    RunString(s[st..|s|]);
  }

  /** On "1a" the machine stops in the integer state on a letter, which is `BadSigBdp`. */
  lemma DeliversIntegerError(r: Result<Option<Token>, LexErr>, next: nat, fo: FloatOps)
    requires next <= 2 && Delivered("1a", 0, r, next, fo)
    ensures r == Err(BadSigBdp)
  {
    IntegerStopsOnLetter(fo);
    DeliveredStops("1a", 0, r, next, 1, fo);
  }

  lemma IntegerStopsOnLetter(fo: FloatOps)
    ensures SkipBlank("1a", 0) == 0 && StopsAt("1a", 0, 1) && Run(Start, "1a"[0..1]) == Some(NumSigBdp)
    ensures Stop(NumSigBdp, "1a"[0..1], Follow("1a", 1), fo).res == Err(BadSigBdp)
  {
    var s := "1a";
    assert s[0..1] == [] + ['1'];
    RunSnoc(Start, [], '1');
    assert Follow(s, 1) == 'a';
    IntegerStop(s[0..1], 'a', fo);
  }

  /** An integer ended by a character that cannot end a number is `BadSigBdp`. */
  lemma IntegerStop(buf: string, c: char, fo: FloatOps)
    requires Advance(NumSigBdp, c).None? && !NumberTerminator(c)
    ensures Stop(NumSigBdp, buf, c, fo).res == Err(BadSigBdp)
  {
  }

  /** The machine's state on entry to an iteration of `get_token`'s loop. */
  ghost predicate Scanning(s: string, pos: nat, start: nat, i: nat, step: Lex, buf: string, dot: int, ex: int) {
    pos <= start <= i <= |s| &&
    (forall k :: pos <= k < start ==> IsBlank(s[k])) &&
    (step == Start ==> start == i && buf == []) &&
    (step != Start ==> start < i && SkipBlank(s, pos) == start && StartChar(s[start])) &&
    buf == s[start..i] &&
    Run(Start, buf) == Some(step) &&
    Shape(step, buf, dot, ex) &&
    (step != Start ==> (IsOperatorChar(s[start]) <==> step == Lex.Operator)) &&
    (step != Start ==> (s[start] == '"' <==> step == Lex.CString)) &&
    (buf == "0" ==> step == NumHexInit) &&
    (|buf| >= 2 && buf[0] == '0' && buf[1] == 'X' ==> step == NumHex)
  }

  /** What the loop knows about the character `c` it feeds: the raw character in a string literal, otherwise the look-ahead. */
  ghost predicate FedChar(s: string, pos: nat, i: nat, step: Lex, c: char)
    requires pos <= i <= |s|
  {
    (step == Start ==> SkipBlank(s, pos) == i && i < |s| && !IsBlank(s[i])) &&
    c == Fed(s, i, step)
  }

  lemma EmitToken(s: string, start: nat, i: nat, step: Lex, buf: string, c: char, dot: int, ex: int, fo: FloatOps)
    requires start <= i <= |s| && buf == s[start..i] && Shape(step, buf, dot, ex)
    requires step == Start ==> start == i
    requires step != Start ==> start < i
    requires c == Fed(s, i, step)
    requires Advance(step, c).None?
    ensures var m := Stop(step, buf, c, fo);
      var next := if m.consume then i + 1 else i;
      next <= |s| && (m.res.Ok? ==> Spans(s, start, m.res.value.value, next, fo))
  {
    var m := Stop(step, buf, c, fo);
    var next := if m.consume then i + 1 else i;
    if m.consume {
      assert !IsBlank(c);
      assert i < |s| && c == s[i];
      assert s[start..i + 1] == s[start..i] + [s[i]];
    }
    if m.res.Ok? {
      StopLexeme(step, buf, c, dot, ex, fo, Follow(s, next));
    }
  }

  /** A stopping move delivers the token that begins at `start`, whichever it is. */
  lemma EmitComplete(s: string, pos: nat, start: nat, i: nat, step: Lex, buf: string, c: char, dot: int, ex: int, fo: FloatOps)
    requires Scanning(s, pos, start, i, step, buf, dot, ex) && FedChar(s, pos, i, step, c)
    requires Feed(step, buf, c, fo).Emit?
    ensures var m := Feed(step, buf, c, fo);
      forall t: Token, n: nat :: Spans(s, SkipBlank(s, pos), t, n, fo) ==>
        m.res == Ok(Some(t)) && (if m.consume then i + 1 else i) == n
  {
    var m := Feed(step, buf, c, fo);
    forall t: Token, n: nat | Spans(s, SkipBlank(s, pos), t, n, fo)
      ensures m.res == Ok(Some(t)) && (if m.consume then i + 1 else i) == n
    {
      MachineBuildsSpan(s, start, t, n, i, step, c, fo);
    }
  }

  /** A stopping move is never inside an unclosed literal, and its error is that of the state it stops in. */
  lemma EmitFails(s: string, pos: nat, start: nat, i: nat, step: Lex, buf: string, c: char, dot: int, ex: int, fo: FloatOps)
    requires Scanning(s, pos, start, i, step, buf, dot, ex) && FedChar(s, pos, i, step, c)
    requires Feed(step, buf, c, fo).Emit?
    ensures var m := Feed(step, buf, c, fo);
      var st := SkipBlank(s, pos);
      st < |s| && !Unclosed(s, st) && (m.res.Err? ==> Fails(s, pos, m.res.error, fo))
  {
    var m := Feed(step, buf, c, fo);
    var st := SkipBlank(s, pos);
    if step == Lex.CString {
      assert c == '"' && i < |s|;
      assert s[st + 1..][i - st - 1] == s[i];
    }
    if m.res.Err? {
      EmitComplete(s, pos, start, i, step, buf, c, dot, ex, fo);
      assert StopsAt(s, st, i);
    }
  }

  lemma EmitStart(s: string, pos: nat, start: nat, i: nat, step: Lex, buf: string, c: char, dot: int, ex: int, fo: FloatOps)
    requires Scanning(s, pos, start, i, step, buf, dot, ex) && FedChar(s, pos, i, step, c)
    requires Feed(step, buf, c, fo).Emit?
    ensures var st := SkipBlank(s, pos);
      var r := Feed(step, buf, c, fo).res;
      st < |s| && (r == Err(BadStart) <==> !StartChar(s[st]))
  {
  }

  lemma EmitOperator(s: string, pos: nat, start: nat, i: nat, step: Lex, buf: string, c: char, dot: int, ex: int, fo: FloatOps)
    requires Scanning(s, pos, start, i, step, buf, dot, ex) && FedChar(s, pos, i, step, c)
    requires Feed(step, buf, c, fo).Emit?
    ensures var m := Feed(step, buf, c, fo);
      OperatorClause(s, SkipBlank(s, pos), m.res, if m.consume then i + 1 else i)
  {
    var st := SkipBlank(s, pos);
    if st + 1 < |s| && IsOperatorChar(s[st]) && step != Start {
      assert step == Lex.Operator && |buf| == 1 && i == st + 1;
      if IsOperatorChar(s[st + 1]) || s[st + 1] == '"' {
        assert c == s[i];
      }
    }
  }

  lemma EmitCapitalHex(s: string, pos: nat, start: nat, i: nat, step: Lex, buf: string, c: char, dot: int, ex: int, fo: FloatOps)
    requires Scanning(s, pos, start, i, step, buf, dot, ex) && FedChar(s, pos, i, step, c)
    requires Feed(step, buf, c, fo).Emit?
    ensures var st := SkipBlank(s, pos);
      st + 1 < |s| && s[st] == '0' && s[st + 1] == 'X' ==> Feed(step, buf, c, fo).res == Err(BadHex)
  {
    var st := SkipBlank(s, pos);
    if st + 1 < |s| && s[st] == '0' && s[st + 1] == 'X' && step != Start && |buf| >= 2 {
      assert buf[0] == s[st] && buf[1] == s[st + 1];
    }
  }

  /** A move that stops the machine delivers a proper outcome. */
  lemma EmitDelivers(s: string, pos: nat, start: nat, i: nat, step: Lex, buf: string, c: char, dot: int, ex: int, fo: FloatOps)
    requires Scanning(s, pos, start, i, step, buf, dot, ex) && FedChar(s, pos, i, step, c)
    requires Feed(step, buf, c, fo).Emit?
    ensures var m := Feed(step, buf, c, fo);
      var next := if m.consume then i + 1 else i;
      pos <= next <= |s| && Delivered(s, pos, m.res, next, fo)
  {
    EmitToken(s, start, i, step, buf, c, dot, ex, fo);
    EmitComplete(s, pos, start, i, step, buf, c, dot, ex, fo);
    EmitFails(s, pos, start, i, step, buf, c, dot, ex, fo);
    EmitStart(s, pos, start, i, step, buf, c, dot, ex, fo);
    EmitOperator(s, pos, start, i, step, buf, c, dot, ex, fo);
    EmitCapitalHex(s, pos, start, i, step, buf, c, dot, ex, fo);
  }

  /** A move that goes on keeps the loop's state, one character further. */
  lemma GoScanning(s: string, pos: nat, start: nat, i: nat, step: Lex, buf: string, c: char, dot: int, ex: int, fo: FloatOps)
    requires Scanning(s, pos, start, i, step, buf, dot, ex) && FedChar(s, pos, i, step, c)
    requires Feed(step, buf, c, fo).Go? && i < |s|
    ensures var start' := if step == Start then i else start;
      Scanning(s, pos, start', i + 1, Feed(step, buf, c, fo).step, buf + [c],
               NextDot(step, c, |buf|, dot), NextEx(step, c, |buf|, ex))
  {
    FeedKeepsShape(step, buf, c, dot, ex);
    RunSnoc(Start, buf, c);
    assert c == s[i];
    assert s[start..i + 1] == s[start..i] + [s[i]];
    var sv := buf + [c];
    if |sv| >= 2 {
      assert sv[0] == buf[0];
    }
  }

  /** Running out of input while the machine goes on leaves no token: it was inside a string literal. */
  lemma EndDelivers(s: string, pos: nat, start: nat, step: Lex, buf: string, c: char, dot: int, ex: int, fo: FloatOps)
    requires Scanning(s, pos, start, |s|, step, buf, dot, ex) && FedChar(s, pos, |s|, step, c)
    requires Feed(step, buf, c, fo).Go?
    ensures Delivered(s, pos, Ok(None), |s|, fo)
  {
    assert s[start + 1..] == buf[1..];
    assert Unclosed(s, start);
    forall t: Token, n: nat
      ensures !Spans(s, start, t, n, fo)
    {
      if Spans(s, start, t, n, fo) {
        SpanStops(s, start, t, n, |s|, step, fo);
      }
    }
  }

  /** Blanks up to the end of the input leave no token and no error. */
  lemma AllBlankDelivers(s: string, pos: nat, dot: int, ex: int, fo: FloatOps)
    requires Scanning(s, pos, |s|, |s|, Start, "", dot, ex)
    ensures Delivered(s, pos, Ok(None), |s|, fo)
  {
    SkipBlankAt(s, pos, |s|);
  }

  /** A blank before the token is skipped. */
  lemma SkipScanning(s: string, pos: nat, i: nat, dot: int, ex: int)
    requires Scanning(s, pos, i, i, Start, "", dot, ex)
    requires i < |s| && IsBlank(s[i])
    ensures Scanning(s, pos, i + 1, i + 1, Start, "", dot, ex)
  {
  }

  /**
   * `get_token`: read one token of `s` from `pos`, skipping blanks first.
   * `next` is where the caller's iterator is left: after the token, or on
   * the look-ahead character that ended a number, an identifier or a
   * one-character operator.
   */
  method GetToken(s: string, pos: nat, fo: FloatOps) returns (r: Result<Option<Token>, LexErr>, next: nat)
    requires pos <= |s|
    ensures pos <= next <= |s|
    ensures Delivered(s, pos, r, next, fo)
  {
    var i: nat, start: nat := pos, pos;
    var step := Start;
    var buf: string := "";
    ghost var dot, ex := -1, -1;
    while true
      invariant Scanning(s, pos, start, i, step, buf, dot, ex)
      decreases |s| - i
    {
      var last := i == |s|;
      var c := if last then ' ' else s[i];
      if step == Start && IsBlank(c) {
        if last {
          AllBlankDelivers(s, pos, dot, ex, fo);
          return Ok(None), |s|;
        }
        SkipScanning(s, pos, i, dot, ex);
        i, start := i + 1, i + 1;
        continue;
      }
      if IsBlank(c) && step != Lex.CString {
        c := ' ';
      }
      assert FedChar(s, pos, i, step, c) by {
        if step == Start {
          SkipBlankAt(s, pos, i);
        }
      }
      var m := Feed(step, buf, c, fo);
      if m.Emit? {
        EmitDelivers(s, pos, start, i, step, buf, c, dot, ex, fo);
        return m.res, if m.consume then i + 1 else i;
      }
      if last {
        EndDelivers(s, pos, start, step, buf, c, dot, ex, fo);
        return Ok(None), |s|;
      }
      GoScanning(s, pos, start, i, step, buf, c, dot, ex, fo);
      start := if step == Start then i else start;
      step, dot, ex := m.step, NextDot(step, c, |buf|, dot), NextEx(step, c, |buf|, ex);
      buf, i := buf + [c], i + 1;
    }
  }
}
