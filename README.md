# stack: parser, value algebra, stack machine and scope introspection

This project models three parts of `stack`, a small stack-based language
whose source text is parsed into an expression tree that is also the
language's runtime value:

- **The parser and its value type** (`src/parser.rs`).
  - `parse` turns a vector of tokens into expressions. It keeps a stack of
    open frames and a parallel stack of bracket kinds. `)` wraps the
    innermost frame into a `Block` and `]` wraps it into a `List`.
  - A mismatched closer, or an opener still unclosed at the end of the
    input, makes the result empty.
  - `Expr` has a hand-written equality. It coerces integers to floats and
    integers to booleans.
  - `Expr` also has truthiness, `is_nil`, a conversion from `Option`, and
    rendering to text.
- **The value algebra and the virtual machine** (`stack-core/src/compile.rs`).
  - `Val` arithmetic saturates on integers and reports mixed operands as an
    error.
  - `VM::compile` appends one instruction per expression and then `End`.
  - `VM::step` advances the instruction pointer, pushes literals, performs
    `Add`, and halts on `End`.
  - `main` runs the literal program `2 2 +`.
- **The `scope` module of the standard library** (`stack-std/src/scope.rs`).
  - `where` pops a value and classifies a symbol as an intrinsic, a module,
    a `let` binding or a scope item, in that order of priority.
  - `dump` pushes a list of `[name, value]` pairs.

Files, one module each:

| file | module | models |
|---|---|---|
| `results.dfy` | `Results` | `Option` and `Result` |
| `numerics.dfy` | `Numerics` | `i64` bounds, saturating arithmetic, truncating `/` and `%`, decimal text |
| `exprs.dfy` | `Exprs` | `Expr` of `src/parser.rs`: equality, truthiness, `From<Option>`, `to_string` |
| `parser.dfy` | `Parser` | tokens, `parse` as an imperative loop, its specification and round-trip lemmas |
| `core.dfy` | `Core` | `stack_core`'s `ExprKind` and `Intrinsic` |
| `machine.dfy` | `Machine` | `Val`, `Op`, `VMError`, the step function and the class `VM` |
| `scope.dfy` | `Scope` | `where` and `dump` over a class `Context` |

How `parse` is specified:

- `Parser.Parse` is a loop over two local stacks, as in the source.
- It is proved equal to the fold `Parser.ParseTokens`.
- Properties of the fold:
  - It fails exactly when the brackets are not `Balanced`.
  - A successful parse, spelled back out with `TokensOfAll`, gives the input
    tokens.
  - Parsing the spelling of any expressions the parser can produce gives
    those expressions back.

How the machine is specified:

- `VM.Step` and `VM.Run` change the fields of a `VM` object in place.
- `Machine.Next` and `Machine.Execute` give the same steps as functions on a
  `State` value, and each method is proved to match its function.

Branches that the source leaves as `todo!()` are modelled as follows:

- In `step`, each such branch gives the outcome `Unimplemented`; no
  behaviour is invented for it.
- In `compile_expr`, they are excluded by the precondition `Compilable`.

## Model

| member | source | states |
|---|---|---|
| Numerics.Saturate | stack-core/src/compile.rs:19-21 | the result is the exact value when it fits in `i64`; otherwise no `i64` is closer to the exact value |
| Numerics.TruncDivision | stack-core/src/compile.rs:79 | for `TruncDiv` and `TruncRem`, Rust's `/` and `%` on integers: the truncating quotient and remainder satisfy `q*b + r == a`; `abs(r) < abs(b)`; `r` is zero or has the dividend's sign; `abs(q)*abs(b) <= abs(a)` |
| Numerics.TruncDivInRange | stack-core/src/compile.rs:64-66 | the truncating quotient of two `i64` fits in `i64`, except `MIN / -1`, which is `MAX + 1` |
| Numerics.SaturatingDiv | stack-core/src/compile.rs:64-66 | `saturating_div` for a non-zero divisor: `MIN / -1` is `MAX`; any other pair gives the truncating quotient |
| Numerics.RemI64 | stack-core/src/compile.rs:79 | `%` outside its panics: `abs(r) < abs(b)`; the sign follows the dividend; `r` is `a - q*b` for some `i64` quotient `q` |
| Numerics.Digits | src/parser.rs:79 | the decimal digits of a natural number are all digits, with no leading zero |
| Numerics.DigitsRoundTrip | src/parser.rs:79 | reading back the digits of `n` gives `n` |
| Numerics.DecimalRoundTrip | src/parser.rs:79 | for `Decimal`, the model of `i64::to_string`: the decimal text of any integer reads back as that integer |
| Exprs.EqualSymmetric | src/parser.rs:35-73 | `Equal`, the model of `PartialEq::eq`, is symmetric, including the coercions and the element-wise comparison |
| Exprs.EqualReflexive | src/parser.rs:35-73 | `Equal`: every expression with no NaN inside equals itself; NaN is the only source of irreflexivity |
| Exprs.IntegerBooleanEquality | src/parser.rs:63-70 | `Integer(i) == Boolean(b)` holds exactly when `(i != 0) == b`, in both argument orders |
| Exprs.FloatEqLaws | src/parser.rs:39 | `FloatEq`, the model of `f64 == f64`: symmetric; a NaN equals nothing; every other float equals itself; `0.0 == -0.0`; a non-zero float equals only its own bit pattern |
| Exprs.IntEqFloatExact | src/parser.rs:54-61 | `IntEqFloat`, the model of `i as f64 == f`: an integer below 2^53 in magnitude equals a float exactly when the float denotes that integer |
| Exprs.IntEqFloatRounds | src/parser.rs:54-61 | `IntEqFloat` rounds beyond 2^53: both 2^53 and 2^53 + 1 equal the float 2^53 |
| Exprs.CrossVariantUnequal | src/parser.rs:71 | any pair of variants that is neither the same variant nor integer/float nor integer/boolean is unequal |
| Exprs.CompositeEquality | src/parser.rs:48-49 | blocks, and lists, are equal exactly when their lengths agree and their elements are equal pairwise by the same equality; a block never equals a list |
| Exprs.EqualNotTransitive | src/parser.rs:63-70 | the coercion breaks transitivity: `1 == true` and `true == 2`, but `1 != 2` |
| Exprs.TruthinessCases | src/parser.rs:109-117 | for `IsTruthy`, the model of `is_truthy`: `Nil` is falsy; a boolean is itself; integers and floats are truthy exactly when non-zero, so NaN is truthy; strings, symbols, calls, blocks and lists are always truthy |
| Exprs.TruthinessMatchesEquality | src/parser.rs:109-117 | an integer or boolean is truthy exactly when it equals `true`, and falsy exactly when it equals `false` |
| Exprs.IsNil | src/parser.rs:119-121 | `is_nil` holds exactly for the expressions equal to `Nil`, and such an expression is never truthy |
| Exprs.FromOption | src/parser.rs:26-33 | `Some(v)` converts to `v`; the result is nil exactly for `None` or `Some(Nil)` |
| Exprs.RenderDelimiters | src/parser.rs:76-106 | for `Render`, the model of `to_string`: a block renders inside `(`…`)` and a list inside `[`…`]`, so a block and a list with the same items never render the same |
| Exprs.RenderIntegerReadsBack | src/parser.rs:79 | for `Render`: an integer renders as decimal text that reads back as the same integer |
| Exprs.ScalarEqualityExamples | src/parser.rs:277-319 | the integer, string and boolean equality tests: equal payloads compare equal, different payloads unequal |
| Exprs.NameEqualityExamples | src/parser.rs:321-370 | the symbol, call and nil equality tests |
| Exprs.IntegerBooleanExamples | src/parser.rs:398-419 | `1 == true` and `0 == false`, in both orders |
| Exprs.CompositeEqualityExamples | src/parser.rs:343-363 | the block and list equality tests |
| Exprs.FloatEqualityExamples | src/parser.rs:288-297 | `1.0 == 1.0` and `1.0 != 1.1`, with the literals as IEEE 754 bit patterns |
| Exprs.IntegerFloatExamples | src/parser.rs:376-396 | `1 == 1.0` and `1 != 1.1`, in both orders |
| Parser.LiftSpelled | src/parser.rs:136-145 | for `Lift`, the token match of the loop: a non-bracket token becomes an expression that is spelled by exactly that token; calls named `true`/`false` become booleans |
| Parser.AppendTop | src/parser.rs:136-145 | appending to the innermost frame keeps the two stacks in step: one frame more than open brackets |
| Parser.Close | src/parser.rs:156-173 | a closer that matches the innermost bracket pops its frame and keeps the stacks in step |
| Parser.Feed | src/parser.rs:134-174 | each loop iteration keeps `blocks` one longer than `list_mode`, so the innermost frame always exists |
| Parser.FeedAllAppend | src/parser.rs:134-175 | running the loop over `a + b` is running it over `a`, then over `b` from where it stopped |
| Parser.Parse | src/parser.rs:130-183 | the loop computes `ParseTokens`; on balanced input the result is parsable and spells the input back; on unbalanced or mismatched input it is empty |
| Parser.ParseBalanced | src/parser.rs:130-183 | for `ParseTokens`, the fold `FeedAll` of the loop followed by the final check: `parse` succeeds exactly when the brackets match, kind for kind, with none left open |
| Parser.FeedAllConsumes | src/parser.rs:134-175 | the frames after any prefix of the input spell that prefix, with each open bracket in place |
| Parser.ParseSound | src/parser.rs:130-183 | for `ParseTokens`: a successful parse yields expressions the parser can produce, and they spell the input back token for token |
| Parser.FeedSpelledAll | src/parser.rs:134-175 | feeding the spelling of parsable expressions appends exactly those expressions to the innermost frame |
| Parser.ParseComplete | src/parser.rs:130-183 | for `ParseTokens`: parsing the spelling of any parsable expressions gives them back |
| Parser.SpellingInjective | src/parser.rs:130-183 | different parsable expression sequences have different spellings, so a token vector has at most one parse |
| Parser.ParseBlockExample | src/parser.rs:193-202 | `(1 2 3)` parses to one block of three integers |
| Parser.ParseListExample | src/parser.rs:165-168 | `[1 2 3]` parses to one list of three integers |
| Parser.ParseBlockAtBeginningExample | src/parser.rs:205-214 | `(1 2 3) 4 5 6` parses to a block followed by three integers |
| Parser.ParseNestedExample | src/parser.rs:218-226 | `(1 (2 3) 4)` parses with the inner block nested in the outer one |
| Parser.ParseBlockAndListExample | src/parser.rs:230-238 | `(1 [2 3] 4)` parses with the list nested in the block |
| Parser.ParseBooleansExample | src/parser.rs:263-267 | `true false` parses to two booleans |
| Parser.ParseUnclosedExample | src/parser.rs:242-246 | an unclosed `(` gives the empty result |
| Parser.ParseStrayCloserExample | src/parser.rs:249-253 | a lone `)` gives the empty result |
| Parser.ParseMismatchExample | src/parser.rs:256-260 | `(1 2 3]` gives the empty result |
| Machine.Add | stack-core/src/compile.rs:14-27 | succeeds exactly on operands of the same kind; integers give the exact sum clamped to `i64`; a mixed pair is returned as the error, in order |
| Machine.Sub | stack-core/src/compile.rs:29-42 | as `Add`, for the exact difference |
| Machine.Mul | stack-core/src/compile.rs:44-57 | as `Add`, for the exact product |
| Machine.Div | stack-core/src/compile.rs:59-72 | for a non-zero integer divisor: the truncating quotient, and `MAX` for `MIN / -1`; a mixed pair is returned as the error |
| Machine.Rem | stack-core/src/compile.rs:74-85 | outside the panicking pairs: the truncating remainder, smaller than the divisor and signed like the dividend; a mixed pair is returned as the error |
| Machine.CompileExpr | stack-core/src/compile.rs:138-159 | never `End`; an integer literal compiles to a push of that integer, and a symbol naming an intrinsic compiles to that intrinsic |
| Machine.CompileAll | stack-core/src/compile.rs:161-167 | one instruction per expression, in order, none of them `End` |
| Machine.AddTop | stack-core/src/compile.rs:183-192 | with fewer than two values, `Unknown` is reported and the stack is left empty; otherwise everything below the two operands is kept |
| Machine.Next | stack-core/src/compile.rs:169-248 | a step leaves `ops` alone and keeps `ip <= len(ops)`, never moving it back; `IPBounds` is reported exactly at `ip == usize::MAX`, with nothing changed; a successful step moves `ip` by one; `Halt` leaves the stack alone; only the top two values can change |
| Machine.Execute | stack-core/src/compile.rs:259-264 | running steps until one does not succeed ends with an error or an unimplemented branch, never with a plain success, and `ip` stays within `ops` |
| Machine.ExecuteStops | stack-core/src/compile.rs:169-248 | on instructions ending with `End`, a run stops at that `End` at the latest: `ip` stays within `ops`; the outcome is `Halt` at an `End`, `Unknown` at an `Add`, or a `todo!()` of an intrinsic; the `ip`-past-the-end `todo!()` is never reached |
| Machine.RunStopsAtEnd | stack-core/src/compile.rs:161-167 | a run from `ip` 0 over any instructions without `End` followed by one `End` halts only at that `End`, or stops early in an intrinsic |
| Machine.CompiledRunStops | stack-core/src/compile.rs:161-167 | a compiled program run from `ip` 0 halts only after all its instructions, at the final `End`, or stops early in an intrinsic; it never runs past the end of `ops` |
| Machine.StepPush | stack-core/src/compile.rs:179-181 | `Push(v)` appends `v`, keeps the rest of the stack and moves `ip` by one |
| Machine.StepEnd | stack-core/src/compile.rs:241 | `End` reports `Halt` with the stack unchanged |
| Machine.StepAddIntegers | stack-core/src/compile.rs:183-192 | `Add` on two integers on top replaces them with their saturated sum |
| Machine.StepAddUnderflow | stack-core/src/compile.rs:127-132 | `Add` with fewer than two values reports `Unknown`; a single value is popped and lost |
| Machine.TwoPlusTwo | stack-core/src/compile.rs:251-264 | `2 2 +` compiles to `[Push 2, Push 2, Add, End]`; three steps succeed leaving `[4]`, and the fourth halts |
| Machine.VM.constructor | stack-core/src/compile.rs:116-125 | a new machine has no instructions, `ip` at 0 and an empty stack |
| Machine.VM.StackPop | stack-core/src/compile.rs:127-132 | pops the top value; an empty stack gives `Unknown` and stays empty |
| Machine.VM.StackPush | stack-core/src/compile.rs:134-136 | appends the value to the stack |
| Machine.VM.Compile | stack-core/src/compile.rs:161-167 | the existing instructions stay as a prefix, followed by one per expression and a single `End` |
| Machine.VM.Step | stack-core/src/compile.rs:169-248 | the new state and outcome are those of `Next` on the old state |
| Machine.VM.Run | stack-core/src/compile.rs:259-264 | the loop of `main` ends in the state and outcome of `Execute` |
| Machine.RunTwoPlusTwo | stack-core/src/compile.rs:251-264 | running `2 2 +` on a new machine halts with `[4]` on the stack |
| Scope.ModulePrefix | stack-std/src/scope.rs:18 | the text before the first `:` is a prefix of the name with no `:` in it, and is followed by `:` when shorter than the name |
| Scope.BarePrefix | stack-std/src/scope.rs:18 | a name without `:` is its own prefix |
| Scope.QualifiedPrefix | stack-std/src/scope.rs:18 | the prefix of `m:rest` is `m` |
| Scope.Classify | stack-std/src/scope.rs:12-31 | the priority is intrinsic, then registered module prefix, then `let`, then scope item, then `Nil`, each as an if-and-only-if; a value that is not a symbol gives `Nil` |
| Scope.BareModuleName | stack-std/src/scope.rs:16-22 | a bare registered module name that is not an intrinsic is a module, whatever else binds it |
| Scope.QualifiedModuleName | stack-std/src/scope.rs:16-22 | `m:rest` with `m` registered is a module, unless the whole name is an intrinsic |
| Scope.LetBeforeScope | stack-std/src/scope.rs:23-26 | a name bound both by `let` and as a scope item is reported as `let` |
| Scope.ItemNames | stack-std/src/scope.rs:25 | the names found by `scope_item` are exactly the names of the scope's items |
| Scope.DumpEntries | stack-std/src/scope.rs:36-51 | one entry per scope item, in order: a list of the name as a symbol and the value, or `Nil` when there is none |
| Scope.Context.StackPop | stack-std/src/scope.rs:10 | pops the top value; an empty stack is an error and stays empty |
| Scope.Context.StackPush | stack-std/src/scope.rs:15 | appends the value to the stack |
| Scope.Where | stack-std/src/scope.rs:9-34 | pops one value and pushes its classification; on an empty stack the error is returned and nothing is pushed; bindings are unchanged |
| Scope.Dump | stack-std/src/scope.rs:35-56 | pops nothing and pushes one list of the scope's entries |

## Left out

- Floating-point arithmetic in `compile.rs` is not evaluated. `Machine.Add`, `Sub`, `Mul`, `Div` and `Rem` on two floats return an unevaluated term (`Machine.F64Term`).
- The formatting of an `f64` by `to_string` is not modelled. `Exprs.Render` takes it as a parameter `showFloat`.
- Float equality in `src/parser.rs` is modelled exactly: IEEE equality on the bit pattern, and `i64 as f64` rounding to nearest with ties to even. Float arithmetic is not.
- The lexer (`crate::lex`, `Lexer`, `Source`) is not part of this model. The parser tests are stated on the token vectors the lexer is expected to produce for their source text.
- `Intrinsic::from_str` is not shown. It is a parameter: a map from names to intrinsics in `Machine`, and a set of names in `Scope`.
- `Machine.Div`, `Numerics.SaturatingDiv`: an integer division by zero panics in the source. Their `requires` exclude a zero divisor, so the model says nothing about that panic.
- `Machine.Rem`, `Numerics.RemI64`: an integer `%` panics in the source on a zero divisor and on `i64::MIN % -1`. Their `requires` exclude both cases, so the model says nothing about those panics.
- `Machine.CompileExpr`: `compile_expr` panics (`todo!()`) on every kind other than integer literals and symbols naming an intrinsic. The precondition `Compilable` excludes those kinds.
- `Machine.Next`: the `todo!()` branches of `step` give the outcome `Unimplemented`, with no further meaning. They are every intrinsic but `Add`, an `Add` on mixed operands, and `ip` past the end of `ops`.
- The unused `registers` and `sp` fields of `VM` are not modelled.
- The `eprintln!` diagnostics of `parse` and `main`, and the final `println!` of `main`, are not modelled.
- `stack_core`'s `ExprKind` is not shown. `Core.ExprKind` keeps its variant names. The payloads that the compiler and the scope module never inspect are simplified: `Lazy`, `Function`, `SExpr` and `Record` carry plain expressions, and source positions are dropped.
- The internals of `Context`, `Engine` and `Module` are not shown.
  - `Scope.Context` keeps only the stack, the `let` bindings and the scope items as a sequence in enumeration order.
  - The engine is reduced to its set of module names.
  - Sharing and interior mutability of scope items are not modelled.
  - The error of `stack_pop` is a single `StackUnderflow` value.
- `Scope.Context.StackPush`: the real `stack_push` returns a `Result`. Its failure cases are not shown, so the model always succeeds.
- The CLI and REPL (`stack-cli/src/main.rs`, `src/main.rs`) are not modelled: argument parsing, line editing, file watching and terminal control.
