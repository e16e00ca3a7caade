# rpn — a verified model of the infix-to-RPN expression engine

`rpn` reads an arithmetic or logical expression written in infix notation
(`2*(3+4)`, `max(1, 2.5, 0x1F)`, `-sin(pi/2)`), splits it into tokens, turns
the token list into a postfix (reverse Polish) parse stack with a
shunting-yard pass, and evaluates that stack. Values are dynamically typed:
an `EVar` holds a string, a 64-bit signed integer, a double or a boolean, and
every operator coerces its operands with the type's own rules (a float on
either side makes the result a float, booleans count as 0/1, a string
converts by parsing).

This project models that core in Dafny, one module per concern:

| file | module | what it models |
|---|---|---|
| `wrappers.dfy` | `Wrappers` | `Option` and `Result` |
| `int64.dfy` | `Int64` | the `i64` range, two's-complement wrap-around, the bitwise operators and shifts as arithmetic on the 64-bit pattern with their laws, `str::parse::<i64>` and `i64::from_str_radix(_, 16)` |
| `evar.dfy` | `Variant` | the `EVar` value type and all its operations (`src/srlvariant/mod.rs`) |
| `evar_laws.dfy` | `VariantLaws` | laws relating the `EVar` operations to each other |
| `tokens.dfy` | `Tokens` | error enums, token kinds, `Token`, `set_unary`, the operator, function and constant tables, token-list rendering |
| `lexer.dfy` | `Lexer` | the `get_token` state machine and its helpers `get_token_number`, `get_token_operator`, `get_token_fuco` |
| `operands.dfy` | `Operands` | `get_operand` and every evaluation callback of `src/eval.rs` (plus the `==` of the `src/lib.rs` tables) |
| `parser.dfy` | `Parser` | the shunting-yard pass of `Expression::parse` |
| `evaluator.dfy` | `Evaluator` | the backward-scanning evaluation loop of `Expression::eval` |
| `expression.dfy` | `Engine` | the `Expression` object: `new`, `tokenize`, `parse`, `eval` |

How the source's shape is kept:

- `Expression` is a Dafny `class` whose fields (`tokens`, `parseStack`,
  `tokenized`, `parsed`, `err`, `reseval`) its methods update in place.
- `get_token` is a `method` whose loop feeds one character at a time to the
  state machine (`Lexer.Advance` moves, `Lexer.Stop` delivers). It is proved
  to deliver what `Lexer.Delivered` describes, from the first non-blank
  character: the token that begins there whenever the text holds one, with
  every field fixed by its lexeme and the catalog entry (`Lexer.Lexeme`); no
  token exactly when only blanks or an unclosed string literal remain;
  otherwise the error of the state the machine stops in. Only one outcome
  meets that description (`Lexer.DeliveredUnique`), so the token list of a
  text and the error that ends it are determined (`Engine.TokenizedUnique`).
- The consumed flags that `get_operand` sets are an `array<bool>` shared by
  the callbacks and the evaluation loop. Each callback method is proved equal
  to a pure specification (`Operands.Spec`) that returns the result together
  with the new flags.
- The parser's loops (`PopHigherLoop`, `UnwindLoop`, `DrainLoop`, `ShuntAll`)
  are methods proved equal to a fold over the tokens (`Parser.Shunt`). Its
  properties are lemmas about that fold.
- The evaluation loop (`Evaluator.SweepLoop`) is proved equal to
  `Evaluator.SweepFrom`. `Engine.Expression.Eval` is proved equal to
  `Evaluator.EvalSpec`, and idempotence of evaluation is proved about it.
- Function pointers (`fn_eval`) become a `Callback` enumeration that
  `Operands.Call` dispatches on.
- Floating-point arithmetic is not modelled bit by bit. A float is an opaque
  64-bit pattern, and every float operation (`+`, `<`, `==`, `sin`, `powf`,
  the `as` casts, `str::parse::<f64>`) comes from a `FloatOps` record that is a
  parameter of every operation needing it. Every property is therefore
  proved for any float semantics. `Variant.Sane` asks only that float
  equality be symmetric.
- The clock reading of `now()` is the parameter `now`.

Behaviour of the code that the model keeps, where other descriptions of the
program differ:

- Operators of equal precedence group to the right. The parse step pushes a
  new operator on top of an equal-precedence one without popping it
  (`src/lib.rs:314`). So `a-b-c` becomes `a b c - -`, i.e. `a-(b-c)`
  (`Parser.ShuntChain`), and `1-3-6` evaluates to 4. The test at
  `tests/test.rs:96` expects -8.
- The `==` of the operator table (`src/lib.rs:553-559`) is the callback of
  `src/lib.rs:1008-1012`, which compares with the hand-written `PartialEq` impl (`src/srlvariant/mod.rs:145-176`)
  (`Variant.Equal`), not with `ev_eq`. A string is unequal to every value
  there, itself included (`VariantLaws.StringEqualityDiffers`).
- A separator `,` is pushed on the operator stack like a parenthesis. A
  closing parenthesis counts the separators it pops to set the function's
  parameter count (`Parser.CloseParArity`).
  Separators never reach the parse stack while a token is processed
  (`Parser.StepEmitsNoSeparator`), but one outside parentheses stays on the
  operator stack until the final flush, which emits it: `1,2` parses to
  `1 2 ,` (`Parser.ShuntTopLevelSeparator`).
- `eval` on an expression that is not parsed but holds no error goes on to
  evaluate whatever the parse stack holds. That stack need not be empty: a
  failed parse keeps the output it had emitted, and a later successful
  `tokenize` clears `err` (`src/lib.rs:242-245`) while leaving `parsed` and
  the parse stack as they were.
- `min` with no argument reports `EvalMaxParam`, as `max` does.
- A number that starts with a lone `0` cannot take an exponent: after that
  `0` only `x`, a digit or a point continue the number (`src/lib.rs:801-816`).
  So `0e5` reports `BadHexInit`, while `1e5` and `0.5e1` are floats
  (`Lexer.FloatShape`).
- The division callback of `src/lib.rs:997-1006` has no arm for strings. The
  model uses the `src/eval.rs:56-66` version, where a string divisor is a
  division by zero.

## Model

| member | source | states |
|---|---|---|
| Int64.Wrap | src/srlvariant/mod.rs:49-75 | the wrapped value is congruent to the exact one modulo 2^64 and equals it when it fits in `i64` |
| Int64.WrapPeriodic | src/srlvariant/mod.rs:49-75 | wrapping ignores multiples of 2^64 |
| Int64.Not | src/srlvariant/mod.rs:119-126 | bitwise `!` flips the sign: the result is negative exactly when the operand is not |
| Int64.NotInvolutive | src/srlvariant/mod.rs:119-126 | `!!x == x` |
| Int64.Bitwise | src/srlvariant/mod.rs:127-135 | combining the low `n` bits of two patterns position by position gives an `n`-bit pattern |
| Int64.BitAnd | src/srlvariant/mod.rs:127-129 | definition: `&` as the position-wise and of the two 64-bit two's-complement patterns, read back as signed; its laws are `NotOfAnd` and `BitwiseSelf` |
| Int64.BitOr | src/srlvariant/mod.rs:130-132 | definition: `\|` as the position-wise or of the two patterns; its laws are `NotOfAnd` and `BitwiseSelf` |
| Int64.BitXor | src/srlvariant/mod.rs:133-135 | definition: `^` as the position-wise exclusive or of the two patterns; its laws are `XorMinusOneIsNot` and `BitwiseSelf` |
| Int64.Shl | src/srlvariant/mod.rs:136-138 | definition: `a << s` as `a * 2^(s mod 64)` wrapped to `i64`; what it computes is given by `ShlExact` and `ShlThenShr` |
| Int64.Shr | src/srlvariant/mod.rs:139-140 | definition: `a >> s` as `a` halved `s mod 64` times, rounding down; `HalveIsFloorDivision` and `ShrOfMultiple` say what that is |
| Int64.UnsignedNot | src/srlvariant/mod.rs:119-126 | the pattern of `!a` is the all-ones pattern minus that of `a` |
| Int64.XorMinusOneIsNot | src/srlvariant/mod.rs:119-135 | `a ^ -1` is `!a`: the bit-level xor and the arithmetic complement agree |
| Int64.NotOfAnd | src/srlvariant/mod.rs:119-132 | De Morgan: `!(a & b) == !a \| !b` |
| Int64.BitwiseSelf | src/srlvariant/mod.rs:127-135 | `a & a == a`, `a \| a == a` and `a ^ a == 0` |
| Int64.XorAllOnes | src/srlvariant/mod.rs:133-135 | xor with the all-ones `n`-bit pattern is the complement within `n` bits |
| Int64.AndOfComplements | src/srlvariant/mod.rs:127-132 | within `n` bits, the or of two complements is the complement of the and |
| Int64.SelfBitwise | src/srlvariant/mod.rs:127-135 | within `n` bits, and and or of a pattern with itself give it back, xor gives 0 |
| Int64.HalveIsFloorDivision | src/srlvariant/mod.rs:139-140 | halving `n` times rounds down: it is floor division by 2^n |
| Int64.ShlThenShr | src/srlvariant/mod.rs:136-140 | `(a << s) >> s == a` when no bit is shifted out |
| Int64.ShlExact | src/srlvariant/mod.rs:136-138 | `a << s` is `a * 2^s` when that product fits |
| Int64.ShrOfMultiple | src/srlvariant/mod.rs:139-140 | `(a * 2^s) >> s == a` for an amount below 64 |
| Int64.WrapMul | src/srlvariant/mod.rs:63-68 | wrapping an intermediate product does not change the wrapped result |
| Int64.PowWrapsStepwise | src/srlvariant/mod.rs:235-249 | one more wrapping multiplication by the base gives the wrapped exact power of the next exponent |
| Int64.DecimalDigits | src/lib.rs:180 | rendering a count gives a non-empty string of decimal digits |
| Int64.DecimalRoundTrip | src/lib.rs:697 | reading back rendered digits gives the number |
| Int64.HexDigitValue | src/lib.rs:643-645 | a hexadecimal digit is worth less than 16; the value of a digit string built from it is given by `ParseHexI64` |
| Int64.ParseI64 | src/lib.rs:697 | `str::parse::<i64>`: on all-digit text it succeeds exactly when the value fits and returns that value; empty text fails |
| Int64.ParseHexI64 | src/lib.rs:705 | `i64::from_str_radix(_, 16)`: on all-hex-digit text it succeeds exactly when the value fits and returns that value |
| Int64.ParseRendered | src/srlvariant/mod.rs:31-38 | every `i64`, rendered with its sign, parses back to itself |
| Int64.ParseRejectsNonDigit | src/lib.rs:697 | a non-digit after the first character makes the integer parse fail |
| Variant.ToInt | src/srlvariant/mod.rs:31-38 | an integer is itself; a boolean is 1 or 0; a string is its parsed value, or 0 when it does not parse; a float is truncated |
| Variant.ToBool | src/srlvariant/mod.rs:40-47 | a string is false; integers and booleans are true exactly when their integer value is non-zero |
| Variant.ToFloat | src/srlvariant/mod.rs:22-29 | definition: an integer converted to a float, a boolean as 0 or 1, a float itself, a string parsed as a float or NaN when it does not parse |
| Variant.Add | src/srlvariant/mod.rs:49-54 | a float on either side gives the float sum; otherwise the integer sum, congruent to the exact sum modulo 2^64 and equal to it when it fits |
| Variant.Sub | src/srlvariant/mod.rs:56-61 | a float on either side gives the float difference; otherwise the integer difference, congruent to the exact one modulo 2^64 and equal to it when it fits |
| Variant.Mul | src/srlvariant/mod.rs:63-68 | a float on either side gives the float product; otherwise the integer product, congruent to the exact one modulo 2^64 and equal to it when it fits |
| Variant.Div | src/srlvariant/mod.rs:70-75 | a float on either side gives the float quotient; otherwise the integer quotient truncated toward zero (`TruncDiv`), which needs a non-zero divisor |
| Variant.EvLogNot | src/srlvariant/mod.rs:109-116 | logical not is the negation of the truth value, and false for a string |
| Variant.EvBitNot | src/srlvariant/mod.rs:119-126 | bitwise not of the integer value, and 0 for a string |
| Variant.EvEq | src/srlvariant/mod.rs:77-82 | definition: with a float on either side, float equality of the two `to_float` values; otherwise equality of the two `to_int` values; `OrderingsMirror` relates it to the orderings |
| Variant.EvInfEq | src/srlvariant/mod.rs:83-88 | definition: float `<=` when either side is a float, otherwise integer `<=` of the `to_int` values; `OrderingsMirror` relates it to `EvSupEq` |
| Variant.EvInf | src/srlvariant/mod.rs:89-94 | definition: float `<` when either side is a float, otherwise integer `<`; `OrderingsMirror` relates it to `EvSup` |
| Variant.EvSupEq | src/srlvariant/mod.rs:95-100 | definition: `a >= b` as float `b <= a` when either side is a float, otherwise integer `>=`; `OrderingsMirror` relates it to `EvInfEq` |
| Variant.EvSup | src/srlvariant/mod.rs:101-106 | definition: `a > b` as float `b < a` when either side is a float, otherwise integer `>`; `OrderingsMirror` relates it to `EvInf` |
| Variant.EvBand | src/srlvariant/mod.rs:127-129 | definition: `Int64.BitAnd` of the two `to_int` values |
| Variant.EvBor | src/srlvariant/mod.rs:130-132 | definition: `Int64.BitOr` of the two `to_int` values |
| Variant.EvBitXor | src/srlvariant/mod.rs:133-135 | definition: `Int64.BitXor` of the two `to_int` values |
| Variant.EvShl | src/srlvariant/mod.rs:136-138 | definition: `Int64.Shl` of the two `to_int` values |
| Variant.EvShr | src/srlvariant/mod.rs:139-141 | definition: `Int64.Shr` of the two `to_int` values |
| Variant.Equal | src/srlvariant/mod.rs:145-176 | the hand-written `==`: false whenever a string is involved; against a boolean, the truthiness (`ToBool`) of the other side; integer against integer by value; with a float and no boolean or string, float equality after converting an integer side to float |
| Variant.Math | src/srlvariant/mod.rs:210-234 | every math function returns a float |
| Variant.WrapI32 | src/srlvariant/mod.rs:245 | the `as i32` cast of the exponent lands in the `i32` range; `PowV` states the power computed with it |
| Variant.PowV | src/srlvariant/mod.rs:235-249 | a float exponent gives a float; a zero integer exponent gives 1; otherwise the result is a float exactly when the exponent is negative or the base is a float |
| Variant.MaxV | src/srlvariant/mod.rs:251-262 | the larger value is a float exactly when either operand is, otherwise an integer |
| Variant.MinV | src/srlvariant/mod.rs:264-275 | the smaller value is a float exactly when either operand is, otherwise an integer |
| VariantLaws.AddUndoesSub | src/srlvariant/mod.rs:49-61 | on integer-valued operands `(a - b) + b` gives `a` back, wrap-around included |
| VariantLaws.MulCommutes | src/srlvariant/mod.rs:63-68 | on non-float operands `a * b == b * a`, wrap-around included |
| VariantLaws.MulByOne | src/srlvariant/mod.rs:63-68 | on a non-float operand `a * 1` is its integer conversion |
| VariantLaws.TruncDivTowardsZero | src/srlvariant/mod.rs:70-75 | integer division truncates toward zero for every sign combination |
| VariantLaws.OrderingsMirror | src/srlvariant/mod.rs:77-106 | `a > b` is `b < a`, `a >= b` is `b <= a`; without floats `<` is the negation of `>=` and `==` is `<=` and `>=` together |
| VariantLaws.EqualSymmetric | src/srlvariant/mod.rs:145-176 | the hand-written `==` is symmetric on non-string values when float equality is |
| VariantLaws.EqualOnIntsAndBools | src/srlvariant/mod.rs:145-176 | integers compare by value; against a boolean, values compare by truthiness |
| VariantLaws.ToIntOfRendered | src/srlvariant/mod.rs:31-38 | a string holding a rendered `i64` converts back to that integer |
| VariantLaws.StringEqualityDiffers | src/lib.rs:1008-1012 | `ev_eq` holds between `"5"` and `5` while the hand-written `==` does not |
| VariantLaws.PowIntegral | src/srlvariant/mod.rs:235-249 | a positive integer exponent on a non-float base gives the wrapped integer power of the exponent cast to `u32` (modulo 2^32), which for an exponent in 1..2^32-1 is the exponent itself |
| VariantLaws.PowTrueExponent | src/srlvariant/mod.rs:235-249 | `true` as exponent counts as 1 |
| VariantLaws.MaxMinIntegers | src/srlvariant/mod.rs:251-275 | on integers max and min are commutative, bound both operands and are one of them |
| VariantLaws.FloatTieKeepsSelf | src/srlvariant/mod.rs:251-275 | when floats tie, max and min return the receiver |
| Tokens.ErrorMessage | src/lib.rs:50-60 | each error family has its own message |
| Tokens.SetUnary | src/lib.rs:148-162 | only an operator changes: its unary flag becomes the argument and its parameter count 1 or 2; every other token is unchanged and reports false |
| Tokens.FindOperator | src/lib.rs:553-559 | the operator entry with the given name, and none exactly when no entry has that name |
| Tokens.FindFunction | src/lib.rs:586-592 | the function entry with the given name, and none exactly when no entry has that name |
| Tokens.FindConstant | src/lib.rs:593-599 | the constant entry with the given name, and none exactly when no entry has that name |
| Tokens.RenderConcat | src/lib.rs:171-188 | rendering a token list is rendering its first part followed by rendering its second part |
| Tokens.RenderSlot | src/lib.rs:165-188 | each token of a list appears in the rendering, between the tokens before and after it, as its lexeme and then its annotation (`(n) `, `(un) `, `(bi) ` or a space), which ends with a space |
| Lexer.SkipBlank | src/lib.rs:755-766 | leading blanks are skipped up to the first non-blank character |
| Lexer.TrimHexPrefix | src/lib.rs:705 | `trim_start_matches("0x")` never lengthens the text; which prefixes it removes is given by `HexPrefixTrimmed` and `CapitalHexPrefixRejected` |
| Lexer.GetTokenNumber | src/lib.rs:691-724 | without a terminating look-ahead the state's error; otherwise the lexeme without the look-ahead, parsed as integer, hexadecimal or float, or the state's error when that parse fails |
| Lexer.GetTokenOperator | src/lib.rs:726-735 | succeeds exactly when the lexeme is in the operator table, with that entry's precedence, identifier and callback |
| Lexer.GetTokenFuco | src/lib.rs:668-689 | without a terminating look-ahead `FunctionOrConst`; else a function if the name is one, else a constant if it is one, else `FunctionOrConstNotFound` |
| Lexer.Follow | src/lib.rs:742-754 | the look-ahead is the character at `next` when it is not blank, and a space when it is blank or the text has ended |
| Lexer.CapitalHexPrefixRejected | src/lib.rs:705 | `0X…` is not trimmed and never parses as hexadecimal |
| Lexer.HexPrefixTrimmed | src/lib.rs:705 | `0x` followed by hex digits is trimmed to the digits |
| Lexer.Advance | src/lib.rs:768-911 | the state table: a move never returns to the start or reaches the operator state after the start; which first characters start which state; a blank moves only a string literal; `0X` goes to the hex state; an operator never grows past its first character once another follows |
| Lexer.Stop | src/lib.rs:768-911 | what each state delivers on a character it does not accept: never `Ok(None)`; a string literal always a token; otherwise on failure exactly the error of the state (`StopError`: `BadStart`, `BadHexInit`, `BadSigBdp`, `BadSigAdp`, `BadExpSign`, `BadExpASign`, `BadExpVal`, `BadHex`, the operator and identifier codes); a token spans the characters read, plus the ender when it is consumed |
| Lexer.StopError | src/lib.rs:768-911 | definition: the error each state reports on a character it does not accept; `Stop` proves the machine reports it |
| Lexer.FeedKeepsShape | src/lib.rs:768-884 | every move keeps the characters read in the shape of the new state |
| Lexer.StopLexeme | src/lib.rs:768-911 | every token delivered has the kind, value and callback its lexeme calls for |
| Lexer.EmitToken | src/lib.rs:768-911 | a token delivered mid-text spans the characters read |
| Lexer.EmitStart | src/lib.rs:786-799 | `BadStart` exactly when the first non-blank character cannot start a token |
| Lexer.EmitOperator | src/lib.rs:885-899 | operator lexemes: a second operator character forms a two-character operator, a quote is `QuoteAfterOp` |
| Lexer.EmitCapitalHex | src/lib.rs:801-884 | text starting `0X` yields `BadHex` |
| Lexer.EndDelivers | src/lib.rs:742-758 | the end of the text with a state still accepting delivers no token |
| Lexer.AllBlankDelivers | src/lib.rs:755-759 | blank-only text delivers no token |
| Lexer.RunDigits | src/lib.rs:768-831 | a run of digits leaves the machine in the integer state (the hex-prefix state for a lone `0`) |
| Lexer.RunFloat | src/lib.rs:801-884 | every float lexeme leaves the machine in the state after the point or in the exponent-value state |
| Lexer.RunHex | src/lib.rs:801-884 | `0x` and hex digits leave the machine in the hex state |
| Lexer.RunIdent | src/lib.rs:768-911 | a run of letters leaves the machine in the identifier state |
| Lexer.RunString | src/lib.rs:768-911 | an opening quote and non-quote characters leave the machine inside the string literal |
| Lexer.RunAppend | src/lib.rs:742-948 | running the machine over two pieces is running it over the first, then from there over the second |
| Lexer.LexemeReadsThrough | src/lib.rs:768-911 | the machine goes on through every well-formed lexeme and stops on the character that ends it |
| Lexer.LexemeBuilt | src/lib.rs:653-911 | where it stops on a well-formed lexeme, the machine builds exactly that token, consuming the ender when the token does |
| Lexer.SpanStops | src/lib.rs:742-948 | reading from the start of a token, the loop goes on before the token's ender and stops exactly on it |
| Lexer.MachineBuildsSpan | src/lib.rs:742-948 | where it stops on a token of the text, the loop delivers that token and ends where the token does |
| Lexer.SpanUnique | src/lib.rs:742-948 | at most one token, ending at one place, begins at a position of the text |
| Lexer.UnclosedNoSpan | src/lib.rs:899-947 | no token begins at a string literal that is never closed |
| Lexer.StopsAtUnique | src/lib.rs:742-948 | the machine stops at one place only |
| Lexer.FailsUnique | src/lib.rs:742-948 | a failed read fails with one error only |
| Lexer.DeliveredUnique | src/lib.rs:737-948 | only one result and, for a token, one end position meet `Delivered` |
| Lexer.DeliveredStops | src/lib.rs:742-948 | when the machine stops on an error, that error is the one delivered |
| Lexer.DeliversInteger | src/lib.rs:801-831 | reading `12` delivers the integer token 12 and ends after it |
| Lexer.DeliversIntegerError | src/lib.rs:817-831 | reading `1a` delivers `BadSigBdp` |
| Lexer.GetToken | src/lib.rs:737-948 | what `Delivered` describes: the token that begins at the first non-blank character and where it ends, whenever the text holds one; no token exactly when only blanks or an unclosed string literal remain; otherwise the error of the state the machine stops in; `BadStart` exactly on a character that cannot start a token |
| Lexer.Delivered | src/lib.rs:737-948 | definition of what `get_token` may return: the token that begins at the first non-blank character and its end, `Ok(None)` exactly at the end of the text or at an unclosed string literal, otherwise the error of the state that stops; `DeliveredUnique` proves one outcome only meets it |
| Operands.NearestFree | src/eval.rs:12-20 | the nearest slot below the start whose flag is clear, and none when all are set |
| Operands.Take | src/eval.rs:8-22 | `GetOperandStart` exactly at index 0; `GetOperandMissing` exactly when every slot below is consumed; otherwise the nearest free slot below, now consumed, and no other flag changed |
| Operands.GetOperand | src/eval.rs:8-22 | the loop over the flag array finds what `Take` describes and sets exactly that flag |
| Operands.CountFree | src/eval.rs:8-22 | at most as many free slots as slots; what the count means for an operand search and a collection is given by `TakeCount`, `GatherSucceeds` and `FoldSucceeds` |
| Operands.UnaryResult | src/eval.rs:101-192 | math functions give floats, `~` an integer, `!` a boolean |
| Operands.BinaryResult | src/eval.rs:69-129 | comparisons give booleans, bitwise operators integers |
| Operands.Compare | src/eval.rs:69-143 | definition: `eval_eq`, `eval_neq` and the four orderings through the `ev_*` comparisons with the deeper operand on the left; `&&` and `\|\|` as each operand `== true` under the hand-written equality; the operator table's `==` callback (the `eval_eq` at `src/lib.rs:1008-1012`) as that hand-written equality |
| Operands.Bits | src/eval.rs:105-129 | definition: the integer of `&`, `\|`, `^`, `<<`, `>>` on the deeper operand and the nearer one |
| Operands.DivByZero | src/eval.rs:56-66 | definition: the divisors `eval_div` refuses: integer 0, a zero float, `false`, and every string |
| Operands.SpecUnary | src/eval.rs:101-192 | definition: claim the nearest free operand (`Take`) and apply `UnaryResult`, or fail with `Take`'s error; `UnaryOperand` and `UnarySucceeds` state what this gives |
| Operands.SpecBinary | src/eval.rs:28-129 | definition: claim the nearest free operand, then the next free one below it, and apply `BinaryResult` deeper operand first; `BinaryOperands` and `BinarySucceeds` state what this gives |
| Operands.SpecDiv | src/eval.rs:56-66 | definition: claim the divisor, fail with `EvalDiv0` when `DivByZero` holds of it, then claim the dividend and divide; `DivOperands` and `DivNeedsTwo` state what this gives |
| Operands.SpecFold | src/eval.rs:195-223 | definition: claim the nearest operand and fold `nb - 1` more into it with `Gather`; `FoldSucceeds` and `FoldOfOne` state what this gives |
| Operands.SpecAvg | src/eval.rs:225-238 | definition: the summing fold divided by `nb` as a float; `AvgIsFloat` states what this gives |
| Operands.Spec | src/eval.rs:24-243 | definition: the dispatch on the callback identifier: a null callback fails with `EvalNullFn`, `now` gives the clock, `max`/`min`/`avg` without parameters fail with `EvalMaxParam`/`EvalAvgParam`, the rest by arity; `Call` is proved to compute it |
| Operands.Combine | src/eval.rs:195-238 | a fold step gives a float exactly when either side is a float |
| Operands.Gather | src/eval.rs:195-238 | the fold keeps the flag array's length; when it succeeds and what it consumes is given by `GatherSucceeds` and `GatherClaims` |
| Operands.CallUnary | src/eval.rs:101-192 | one-operand callbacks compute `SpecUnary`, on the result and on the flags |
| Operands.CallBinary | src/eval.rs:28-129 | two-operand callbacks compute `SpecBinary` |
| Operands.CallDiv | src/eval.rs:56-66 | division computes `SpecDiv` |
| Operands.CallFold | src/eval.rs:195-238 | the loop of `max`, `min` and `avg` computes `SpecFold` |
| Operands.Call | src/eval.rs:24-243 | every callback, dispatched on its identifier, computes `Spec` |
| Operands.TakeCount | src/eval.rs:8-22 | an operand is found exactly when some slot below is free, and taking it frees one slot fewer |
| Operands.GatherSucceeds | src/eval.rs:195-238 | collecting `n` operands succeeds exactly when `n` slots below are free |
| Operands.GatherClaims | src/eval.rs:195-238 | a successful collection consumes exactly `n` slots and never releases one |
| Operands.FoldSucceeds | src/eval.rs:195-238 | `max`, `min`, `avg` succeed exactly when they have 1 to (free slots) parameters; with none they report `EvalMaxParam` (`EvalAvgParam` for `avg`) |
| Operands.AvgIsFloat | src/eval.rs:225-238 | the average is a float |
| Operands.FoldOfOne | src/eval.rs:195-223 | `max`/`min` of one operand is that operand |
| Operands.UnaryOperand | src/eval.rs:30-31 | a one-operand callback consumes the nearest free slot below and applies its operation to it |
| Operands.BinaryOperands | src/eval.rs:28-129 | a two-operand callback consumes the two nearest free slots and applies its operation, deeper operand on the left |
| Operands.DivOperands | src/eval.rs:56-66 | a zero divisor fails with `EvalDiv0` having consumed only the divisor; otherwise the quotient of the two nearest operands |
| Operands.UnarySucceeds | src/eval.rs:101-192 | a one-operand callback succeeds exactly when a slot below is free |
| Operands.BinarySucceeds | src/eval.rs:28-129 | a two-operand callback succeeds exactly when two slots below are free |
| Operands.DivNeedsTwo | src/eval.rs:56-66 | division with fewer than two free slots fails |
| Operands.FixedAritySucceeds | src/eval.rs:28-192 | the same, stated for the dispatcher |
| Operands.SpecFramed | src/eval.rs:8-22 | a callback only sets flags, and only below its own slot |
| Operands.SpecLocal | src/eval.rs:8-22 | a callback reads only the values below its own slot |
| Parser.PopHigherLoop | src/lib.rs:320-331 | the loop pops exactly what `PopHigher` describes |
| Parser.UnwindLoop | src/lib.rs:349-365 | the loop unwinds to the opening parenthesis as `Unwind` describes |
| Parser.ShuntToken | src/lib.rs:264-391 | one token is processed as `Step` describes |
| Parser.DrainLoop | src/lib.rs:393-405 | the final flush is `Drain` |
| Parser.ShuntAll | src/lib.rs:255-417 | the whole pass computes the fold `Shunt` |
| Parser.PopHigherMoves | src/lib.rs:320-331 | only higher-precedence or unary operators are moved, in stack order, stopping at a separator or a lower one |
| Parser.UnwindFound | src/lib.rs:349-371 | the opening parenthesis is found exactly when one is on the stack, and it is the topmost one |
| Parser.UnwindCount | src/lib.rs:342-365 | the parameter count is the starting count plus the separators popped |
| Parser.DrainFacts | src/lib.rs:393-405 | the flush succeeds exactly when no opening parenthesis is left; it fails with `MatchingPar` otherwise |
| Parser.StepKeeps | src/lib.rs:264-391 | each step keeps the output free of parentheses and every emitted token callable, and carries every operand over in order; separators are dealt with by `StepEmitsNoSeparator` |
| Parser.ShuntClean | src/lib.rs:255-417 | the parse stack never holds a parenthesis and every token in it is an operand, operator, function or separator; after success it holds every operand of the input in order. Separators left on the operator stack do reach it through the final flush (`ShuntTopLevelSeparator`) |
| Parser.StepEmitsNoSeparator | src/lib.rs:264-391 | one token only appends to the parse stack and never appends a separator: separators inside parentheses are counted and dropped, and the others stay on the operator stack |
| Parser.ShuntTopLevelSeparator | src/lib.rs:393-405 | a separator outside parentheses reaches the parse stack through the final flush: `1,2` parses to `1 2 ,` |
| Parser.ShuntWithoutParens | src/lib.rs:255-417 | an expression without parentheses always parses |
| Parser.CloseParUnmatched | src/lib.rs:366-371 | a closing parenthesis fails with `MatchingPar` exactly when no opening one is pending |
| Parser.CloseParArity | src/lib.rs:341-386 | the function before the parenthesis gets the number of separators plus one (zero for `()`), and `ParamNb` when a fixed arity differs |
| Parser.ShuntChain | src/lib.rs:302-333 | `a m b m c` with the same binary operator gives `a b c m m` (right grouping) |
| Parser.ShuntLeadingUnary | src/lib.rs:295-301 | an operator first in the expression is unary and follows its operand |
| Parser.UnaryAfter | src/lib.rs:295-310 | definition: an operator is unary after nothing, a separator, an operator or `(`, and only when first in the expression if the operator stack is empty; `ShuntLeadingUnary` uses it |
| Parser.EmitOperand | src/lib.rs:269-279 | definition: an operand goes to the parse stack, followed by the operator on top of the stack when that one is unary |
| Parser.PopHigher | src/lib.rs:320-331 | definition: move operators from the stack to the parse stack while the top binds more tightly or is unary, stopping at a separator or parenthesis; `PopHigherMoves` states what this gives |
| Parser.PushOperator | src/lib.rs:287-333 | definition: an operator goes on the stack, after `PopHigher` unless the top is `(`, a function, or a binary operator of no higher precedence; `ShuntChain` shows the grouping that results |
| Parser.Unwind | src/lib.rs:349-365 | definition: pop down to the topmost `(`, counting separators and emitting everything else; `UnwindFound` and `UnwindCount` state what this gives |
| Parser.ClosePar | src/lib.rs:341-386 | definition: a `)` unwinds, fails with `MatchingPar` when no `(` is found, and then emits a pending function with its parameter count or fails with `ParamNb`; `CloseParUnmatched` and `CloseParArity` state what this gives |
| Parser.Step | src/lib.rs:264-391 | definition: one token of the parse loop, dispatched on its kind; `StepKeeps` and `StepEmitsNoSeparator` state what it keeps |
| Parser.Drain | src/lib.rs:393-405 | definition: empty the operator stack onto the parse stack, failing with `MatchingPar` at an orphan `(`; `DrainFacts` states what this gives |
| Parser.Shunt | src/lib.rs:255-417 | definition: `Step` over every token, stopping at the first error, then `Drain`; `ShuntClean`, `ShuntWithoutParens` and `ShuntTopLevelSeparator` state what this gives |
| Evaluator.FirstEligible | src/lib.rs:435-436 | the first operator or function with parameters from a position, none when there is none |
| Evaluator.LastEligible | src/lib.rs:470-496 | the last operator or function with parameters below a bound |
| Evaluator.SweepLoop | src/lib.rs:470-496 | the evaluation loop computes `SweepFrom` on the stack's values with all flags clear |
| Evaluator.SweepFrom | src/lib.rs:470-496 | keeps the lengths of the values and flags; what the sweep computes is stated by `SweepShape`, `SweepLast` and `SweepAgain` |
| Evaluator.SweepLast | src/lib.rs:470-496 | a sweep that completes returns the value stored in the last eligible slot, or the result it started with when it ran none |
| Evaluator.SweepAgain | src/lib.rs:470-496 | values held by eligible slots before they run are never read: sweeping such differing values claims the same operands, returns the same result and stops at the same slot |
| Evaluator.SweepShape | src/lib.rs:470-496 | the sweep stops at the failing slot or at the end, and changes only the values of the slots it ran |
| Evaluator.EvalShape | src/lib.rs:418-501 | evaluation changes only the values held by operator and function slots |
| Evaluator.EvalLast | src/lib.rs:470-496 | a successful evaluation returns the value of the last operator or function |
| Evaluator.EvalStart | src/lib.rs:435-469 | `StartOperandMissing` when slot 0 is an operator or a function with parameters; with no operator, `WrongStackLen` unless exactly one slot, whose value is the result when it is a number or constant and `StartWrongToken` when it is neither these nor a function |
| Evaluator.EvalSpec | src/lib.rs:418-501 | definition: `eval` on a parse stack with its flags cleared; `EvalStart`, `EvalShape`, `EvalLast`, `EvalResult` and `EvalTwice` state what it gives |
| Evaluator.EvalResult | src/lib.rs:497-500 | a successful evaluation yields a value |
| Evaluator.EvalTwice | src/lib.rs:427-433 | evaluating again gives the same stack, result and error |
| Engine.LexAll | src/lib.rs:218-241 | the tokens read one after the other from the start of the text, up to the end of the text or an unclosed string literal when no error occurs, otherwise up to the error that stops them (`Tokenized`); each carries a callback when evaluated |
| Engine.LexedAgree | src/lib.rs:218-241 | two readings of the same text agree token by token and on where each token ends |
| Engine.ClosesUnique | src/lib.rs:218-241 | a reading ends one way only: with no error, or with one error |
| Engine.TokenizedUnique | src/lib.rs:218-241 | the token list of a text and the error that stops it are determined by the text |
| Engine.Expression.constructor | src/lib.rs:203-216 | a new expression holds the tokens of the text (`Tokenized`), or the lexical error that stopped them with an empty parse stack; once tokenized, the parse stack is `Shunt` of the tokens and `parsed`/`err` record whether it succeeded |
| Engine.Expression.Tokenize | src/lib.rs:218-252 | the token list is the text's tokens (`Tokenized`); `Ok` exactly when no lexical error stopped them, clearing `err`, and otherwise `err` is that error; nothing else changes |
| Engine.Expression.Parse | src/lib.rs:255-417 | tokenizes first when needed, with the outcome `Tokenize` states; then the parse stack is `Shunt` of the tokens and `parsed`/`err` record whether it succeeded |
| Engine.Expression.Eval | src/lib.rs:418-501 | `NotParsed` for an unparsed expression holding an error; otherwise stack, result and error are those of `EvalSpec` |

## Left out

- Console output (`println!`) and the `Display` of a whole `Expression` are not modelled; they change no state.
- Floating-point numerics: float arithmetic, comparisons, the math functions, `as` casts and `str::parse::<f64>` are the opaque `FloatOps` parameter, so no numerical property of a float result is stated.
- The system clock read by `now()` is the parameter `now`.
- `Cell` interior mutability: the consumed flags are an array owned by the evaluation loop; the per-token `fun_exec_done` flag is a local sequence.
- The commented-out `lazy_static` tables and the unused identifier enums are not modelled.
- Variant.Add: integer overflow wraps around (release-build behaviour) instead of panicking as a debug build does; the same holds for Variant.Sub, Variant.Mul and Variant.PowV.
- Variant.Div: `i64::MIN / -1`, which panics in Rust, wraps to `i64::MIN`.
- Int64.Shl: a shift amount outside 0..63, which panics in a debug build, is masked to its low six bits as in a release build; the same holds for Int64.Shr.
- Lexer.GetToken: `char::is_numeric`, `is_alphabetic`, `is_whitespace` and `is_control` are restricted to ASCII, so the constant `π` of the table cannot be lexed.
- Engine.Expression.Eval: every operator and function token carries a callback (`Valid`), so the `unwrap` of a missing callback result is not modelled.
- VariantLaws.EqualSymmetric: stated only for float semantics whose equality is symmetric (`Variant.Sane`).
