# LuduScript in Dafny

LuduScript is a small language for describing board and party games (its
running example is Werewolf).  The repository holds several generations of
the same idea.  This project models the parts that are pure text and tree
processing, and proves properties of them:

- **The LuduScript-head pipeline** is the main core.  It turns script text
  into a list of object records in four stages:
  - `HeadLexer` is the lexer.
  - `HeadParser` is the recursive-descent parser, producing the `HeadAst`
    tree.
  - `HeadValue` and `HeadEnv` hold the runtime values and the environment:
    a scope stack, the record being built, its declared fields and the
    output records.
  - `HeadInterp` is the tree-walking interpreter.  Statements run as
    state-passing functions that return the new environment and a signal:
    `Normal`, `Break`, `Continue` or `Error(msg)`.  The signal replaces
    C++ exceptions.
  - `HeadParserFacts` and `HeadInterpFacts` relate several runs.
- **The LuduScript-refactor front end**:
  - `RefactorLexer` is the lexer, with line and column tracking.
  - `RefactorParser` is the recursive-descent parser, producing the
    `RefactorAst` game declaration.
  - `RefactorCodegen` holds the statement and expression printers of the
    Python code generator.
  - `RefactorParserFacts` and `RefactorParseExamples` pin down precedence,
    postfix chains and statement shapes.
- **The root WolfDSL front end and runtime**:
  - `WolfLexer` is the lexer.
  - `WolfParser` is the parser.  It glues token texts into lines and
    records errors in a flag instead of throwing.
  - `WolfRuntime` holds the runtime environment, `fromString`,
    `escape_json`, JSON export and the phase/step error propagation.
- **The string helpers of the two Python generators**: `RootGenerator`
  for `src/generator.cpp` and `MainGenerator` for the LuduScript-main copy.
  `PyLiteral`, `Text` and `PyText` hold what they share.
- **The data-driven parts of the LuduScript-main Werewolf generator**:
  `WerewolfGenerator`.

Shared pieces:

- `Results`: `Option` and `Result`.
- `Chars`: C character classes and ASCII case mapping.
- `Scanning`: character runs and newline counts.
- `NumText`: decimal text and `stoll`/`stoi`.
- `Text`: trimming, counting, find/replace and split/join.

Floating-point formatting and parsing in the head interpreter
(`std::to_string(double)`, and `std::stod` where a value is converted at
run time) are not modelled arithmetically: they are its `Host` parameter.
The head parser reads a float literal as the exact value of its digits, and
an integer literal through the modelled `stoll`.  The functions the
generators receive are likewise parameters.  Integers are unbounded.

The model exposes one behaviour of the head interpreter that its authors
may not have intended.  `execBlock` pops its scope only when the block
ends normally.  So a `break` inside an `if` inside a `for` leaves the
`if` block's scope on the stack.  `HeadInterpFacts.BreakInsideIfLeaksScope`
computes such a run and shows the stack one scope deeper after the loop.
`HeadInterpFacts.DirectBreakKeepsBalance` shows the same loop with the
`break` directly in its body leaving the stack balanced.  The contracts of
`HeadInterp` state depth preservation only for "balanced" statements,
whose loop signals are raised directly in a loop body.

## Model

| member | source | states |
|---|---|---|
| HeadLexer.PunctCanonical | LuduScript/LuduScript-head/src/lexer.cpp:57-117 | every one-character punctuation token carries its fixed spelling as text |
| HeadLexer.LookaheadCanonical | LuduScript/LuduScript-head/src/lexer.cpp:119-159 | the one- and two-character forms of `=`, `!`, `<`, `>` carry their spellings |
| HeadLexer.SkipComment | LuduScript/LuduScript-head/src/lexer.cpp:36-41 | a `//` comment runs to the next newline or end of input and contains neither |
| HeadLexer.SkipWs | LuduScript/LuduScript-head/src/lexer.cpp:22-47 | skipping stops at the first position that starts no blank and no comment; the line counter grows by exactly the number of newlines skipped |
| HeadLexer.SkipWsLine | LuduScript/LuduScript-head/src/lexer.cpp:22-47 | skipping never lowers the line counter |
| HeadLexer.WordKind | LuduScript/LuduScript-head/src/lexer.cpp:180-206 | a word gets a keyword kind exactly when it is one of the twelve reserved words, and `IDENT` otherwise |
| HeadLexer.NumberEnd | LuduScript/LuduScript-head/src/lexer.cpp:209-238 | a number token is digits with at most one `.`, ends on a digit, and is not followed by a digit |
| HeadLexer.ScanString | LuduScript/LuduScript-head/src/lexer.cpp:240-272 | a closed string ends right after a `"`; an unclosed one stops at the end of input or at a NUL |
| HeadLexer.ScanOperator | LuduScript/LuduScript-head/src/lexer.cpp:57-171 | an operator, punctuation or unknown character takes one or two characters, its text is exactly those characters, and it is never `END` |
| HeadLexer.Scan | LuduScript/LuduScript-head/src/lexer.cpp:53-276 | `END` comes exactly when the current character is NUL or the input is exhausted, with empty text and no progress; every other token makes progress; outside strings the token text is the source slice; every operator token carries its spelling |
| HeadLexer.NextToken | LuduScript/LuduScript-head/src/lexer.cpp:49-276 | `nextToken` skips blanks, returns `END` with empty text at the end of input, otherwise moves forward, and never lowers the line |
| HeadLexer.TokensFrom | LuduScript/LuduScript-head/src/lexer.cpp:49-276 | repeated `nextToken` calls yield canonical tokens whose lines never decrease from one token to the next and never fall below the starting line, ending in exactly one `END` |
| HeadLexer.Tokenize | LuduScript/LuduScript-head/src/lexer.cpp:49-276 | the token list ends with `END`, has no earlier `END`, and every operator token has its spelling |
| HeadLexer.EndIsSticky | LuduScript/LuduScript-head/src/lexer.cpp:54-55 | after `END`, `nextToken` returns the same `END` again and does not move |
| HeadLexer.OperatorLookahead | LuduScript/LuduScript-head/src/lexer.cpp:119-159 | `=`, `!`, `<`, `>` become `EQ`/`NEQ`/`LE`/`GE` exactly when `=` follows, consuming two characters; otherwise they give `ASSIGN`/`NOT`/`LT`/`GT` and consume one |
| HeadLexer.LogicalOperators | LuduScript/LuduScript-head/src/lexer.cpp:160-171 | `&&` and `||` need both characters; a lone `&` or `|` is an `UNKNOWN` one-character token |
| HeadLexer.WordToken | LuduScript/LuduScript-head/src/lexer.cpp:173-207 | a word is the longest run of word characters, its text equals the word, and its kind is the keyword's or `IDENT` |
| HeadLexer.NumberToken | LuduScript/LuduScript-head/src/lexer.cpp:209-238 | a number takes its digits, and takes a `.` with further digits only when a digit follows the dot |
| HeadLexer.EscapeChar | LuduScript/LuduScript-head/src/lexer.cpp:254-265 | the spelling of one character inside a literal takes one or two characters |
| HeadLexer.Escape | LuduScript/LuduScript-head/src/lexer.cpp:254-265 | an escaped text is never shorter than the text |
| HeadLexer.ScanEscaped | LuduScript/LuduScript-head/src/lexer.cpp:240-272 | scanning an escaped text followed by `"` decodes exactly the original text and closes after the quote |
| HeadLexer.ScanOneEscaped | LuduScript/LuduScript-head/src/lexer.cpp:252-269 | one escaped character decodes to that character |
| HeadLexer.StringRoundTrip | LuduScript/LuduScript-head/src/lexer.cpp:240-272 | a literal written with escapes lexes back to a `STRING` token holding the original text, ending after the closing quote |
| HeadLexer.QuotedToken | LuduScript/LuduScript-head/src/lexer.cpp:240-272 | at a quote, `nextToken` hands over what the string scanner read, as `STRING` when closed and `UNKNOWN` otherwise |
| HeadLexer.QuotedScan | LuduScript/LuduScript-head/src/lexer.cpp:240-272 | the same, for the scan that starts at the quote |
| HeadLexer.ScanPlain | LuduScript/LuduScript-head/src/lexer.cpp:240-272 | a string body without quote, backslash or NUL is read through to the end of input, unclosed |
| HeadLexer.UnterminatedString | LuduScript/LuduScript-head/src/lexer.cpp:240-272 | a string whose closing quote never comes yields `UNKNOWN` with the partial text and consumes the rest of the input |
| HeadParser.Fail | LuduScript/LuduScript-head/src/parser.cpp:41-46 | `error` fails with the message built from the line and the offending token text |
| HeadParser.Expect | LuduScript/LuduScript-head/src/parser.cpp:31-39 | `expect` succeeds exactly when the current kind matches, and then consumes exactly one token; otherwise it fails with the error at that token |
| HeadParser.OptSemi | LuduScript/LuduScript-head/src/parser.cpp:21-29 | `match(SEMI)` consumes one token exactly when it is `;` |
| HeadParser.NumberLiteral | LuduScript/LuduScript-head/src/parser_expr.cpp:124-142 | a NUMBER text containing `.` becomes a FLOAT literal; any other text goes through `stoll`, giving an INTEGER literal of the value `atoi` reads, within 64 bits, exactly when `stoll` succeeds, and otherwise the exception message `stoll` |
| HeadParser.NumberDigits | LuduScript/LuduScript-head/src/parser_expr.cpp:136-139 | a digit run is the INTEGER literal of its value exactly when that value is at most 2^63 - 1 |
| HeadParser.IntegerLiteralRoundTrip | LuduScript/LuduScript-head/src/parser_expr.cpp:136-139 | the decimal text of any number reads back as that number when it fits 64 bits, and fails with `stoll` when it does not |
| HeadParser.OperatorSpelled | LuduScript/LuduScript-head/src/parser_expr.cpp:8-117 | the operator text the parser copies from a lexer token is an operator the interpreter knows |
| HeadParser.ParseExpr | LuduScript/LuduScript-head/src/parser_expr.cpp:3-6 | a parsed expression consumes at least one token and is well-formed |
| HeadParser.ParseLevel | LuduScript/LuduScript-head/src/parser_expr.cpp:8-103 | on tokens without `(` the tree has the precedence shape `Layered`: every binary operator binds at least as tightly as the level, its left operand is read at the operator's own level (left associativity) and its right operand one level tighter; at least one token is consumed and the tree is well-formed |
| HeadParser.LevelLoop | LuduScript/LuduScript-head/src/parser_expr.cpp:8-103 | a level's loop stops only at a token that is not one of its operators, returns its left operand unchanged when it consumes nothing, and folding to the left keeps the precedence shape |
| HeadParser.ParseUnary | LuduScript/LuduScript-head/src/parser_expr.cpp:105-117 | on tokens without `(` a unary expression holds no binary node at its top or under a prefix; the tree is well-formed |
| HeadParser.ParsePrimary | LuduScript/LuduScript-head/src/parser_expr.cpp:119-188 | a primary consumes at least one token, stops where neither `(` nor `.` follows, and without `(` holds no binary node at its top; a number `stoll` cannot convert ends the parse with the message `stoll` |
| HeadParser.ParsePostfix | LuduScript/LuduScript-head/src/parser_expr.cpp:190-233 | the postfix loop stops only when neither `(` nor `.` follows, and an expression with no binary node at its top keeps that shape through calls and member accesses |
| HeadParser.ParseArgs | LuduScript/LuduScript-head/src/parser_expr.cpp:198-210 | a call's argument list is empty exactly when `)` follows at once |
| HeadParser.ArgsLoop | LuduScript/LuduScript-head/src/parser_expr.cpp:203-207 | further arguments are appended after the ones already read, in order |
| HeadParser.ParseProgram | LuduScript/LuduScript-head/src/parser.cpp:60-68 | every accepted program is well-formed |
| HeadParser.StmtList | LuduScript/LuduScript-head/src/parser.cpp:60-68 | the statement loop stops only at `END`, or at `}` inside a block, and is empty when it consumes nothing |
| HeadParser.ParseStmt | LuduScript/LuduScript-head/src/parser.cpp:70-120 | a statement's kind follows its leading token (if, for, obj, a declaration keyword, break, continue, assignment, expression) and it consumes at least one token |
| HeadParser.ParseSignal | LuduScript/LuduScript-head/src/parser.cpp:80-93 | `break` and `continue` each produce their own statement kind, with a block body |
| HeadParser.ParseSimple | LuduScript/LuduScript-head/src/parser.cpp:96-120 | the result is an assignment exactly when an identifier is directly followed by `=`, and an expression statement otherwise |
| HeadParser.ParseGuarded | LuduScript/LuduScript-head/src/parser.cpp:126-141 | a `(cond) block` clause yields a well-formed condition and body |
| HeadParser.ParseIf | LuduScript/LuduScript-head/src/parser.cpp:122-152 | `parseIf` yields an `if` whose condition and then-block are the guarded block after `if`, whose `elif` clauses are those the `elif` loop reads next, and whose `else` body is the block after `else` (empty without one) |
| HeadParser.ParseElifs | LuduScript/LuduScript-head/src/parser.cpp:133-142 | the `elif` loop stops only when no further `elif` follows |
| HeadParser.ParseElse | LuduScript/LuduScript-head/src/parser.cpp:144-149 | with no `else` the else-body is empty and nothing is consumed |
| HeadParser.ParseFor | LuduScript/LuduScript-head/src/parser.cpp:154-184 | a `for` statement has one to three argument expressions |
| HeadParser.ForArgs | LuduScript/LuduScript-head/src/parser.cpp:168-178 | one required expression and up to two more |
| HeadParser.ForMoreArgs | LuduScript/LuduScript-head/src/parser.cpp:170-178 | at most two further `, expr` arguments |
| HeadParser.ParseObj | LuduScript/LuduScript-head/src/parser.cpp:186-205 | `obj` needs a STRING class name, then `,` idExpr `)` and a block, and yields an object statement with that class name |
| HeadParser.ParseDecl | LuduScript/LuduScript-head/src/parser.cpp:207-272 | a declaration keeps its declared type and never has both an initialiser and an initialiser block |
| HeadParser.DeclInitializer | LuduScript/LuduScript-head/src/parser.cpp:224-268 | a braced initialiser ends just after its `}` and yields a declaration of the given type and name that never has both an initialiser and an initialiser block |
| HeadParser.ParseInitializer | LuduScript/LuduScript-head/src/parser.cpp:225-259 | `{}` gives no initialiser; a single expression before `}` becomes the initialiser; anything else becomes the block |
| HeadParser.ParseBlock | LuduScript/LuduScript-head/src/parser.cpp:274-285 | a block starts at `{` and ends right after its `}` |
| HeadParserFacts.ParsedProgramsAreWellFormed | LuduScript/LuduScript-head/src/parser.cpp:60-68 | every program the front end accepts is well-formed |
| HeadParserFacts.IdentOperand | LuduScript/LuduScript-head/src/parser_expr.cpp:89-117 | an identifier not followed by `(`, `.` or a multiplicative operator is a complete operand at the unary and multiplicative levels |
| HeadParserFacts.LowerLevelsStop | LuduScript/LuduScript-head/src/parser_expr.cpp:3-72 | at `END` every lower level's loop stops at once |
| HeadParserFacts.SubtractionGroupsLeft | LuduScript/LuduScript-head/src/parser_expr.cpp:73-87 | `a - b - c` parses as `(a - b) - c` |
| HeadParserFacts.SubtractionChain | LuduScript/LuduScript-head/src/parser_expr.cpp:73-87 | any three names joined by two `-` at the end of the input parse as `(x - y) - z`, whatever the names and lines |
| HeadParserFacts.PrefixesNest | LuduScript/LuduScript-head/src/parser_expr.cpp:105-117 | a run of n `!`/`-` prefixes before a primary nests into n unary nodes around that primary, the first operator outermost |
| HeadParserFacts.ElifsInOrder | LuduScript/LuduScript-head/src/parser.cpp:133-142 | the k-th `elif` clause is the guarded block after the k-th `elif` keyword; the keywords increase, the first stands where the loop starts, and each clause ends where the next keyword stands |
| HeadValue.MakeInt | LuduScript/LuduScript-head/src/interpreter.cpp:11-18 | `makeInt` gives an integer-flagged NUM |
| HeadValue.MakeNum | LuduScript/LuduScript-head/src/interpreter.cpp:20-27 | `makeNum` gives a NUM without the integer flag |
| HeadValue.Trunc | LuduScript/LuduScript-head/src/interpreter.cpp:81-99 | the cast to `long long` truncates toward zero |
| HeadValue.CRem | LuduScript/LuduScript-head/src/interpreter.cpp:291-297 | C's `%` takes the sign of the dividend and is smaller than the divisor in magnitude |
| HeadValue.CDivision | LuduScript/LuduScript-head/src/interpreter.cpp:291-297 | C's quotient and remainder recombine to the dividend |
| HeadValue.ToBool | LuduScript/LuduScript-head/src/interpreter.cpp:101-110 | a BOOL is itself, a NUM is true iff non-zero, a STR is true iff non-empty |
| HeadValue.ApplyUnary | LuduScript/LuduScript-head/src/interpreter.cpp:234-242 | `!` gives BOOL `!toBool`; `-` always gives a NUM without the integer flag; other operators fail |
| HeadValue.TruncWhole | LuduScript/LuduScript-head/src/interpreter.cpp:81-99 | truncating a whole number gives that number |
| HeadValue.IntegerArithmetic | LuduScript/LuduScript-head/src/interpreter.cpp:250-282 | on integer NUMs, `+`, `-` and `*` are exact integer arithmetic and stay integer-flagged |
| HeadValue.ArithmeticFlag | LuduScript/LuduScript-head/src/interpreter.cpp:250-297 | an arithmetic result is a NUM unless `+` meets a STR; it is integer-flagged exactly when both operands are integer NUMs and the operator is `+`, `-` or `*` |
| HeadValue.DivisionErrors | LuduScript/LuduScript-head/src/interpreter.cpp:283-297 | `/` fails exactly on a zero divisor; `%` fails exactly when the divisor's `toInt` is zero, and otherwise follows C's sign rule |
| HeadValue.EqualityComplement | LuduScript/LuduScript-head/src/interpreter.cpp:298-323 | `!=` is the negation of `==`; `==` is reflexive and symmetric |
| HeadValue.CrossKindUnequal | LuduScript/LuduScript-head/src/interpreter.cpp:298-310 | values of different kinds are never equal |
| HeadValue.OperatorsKeepValueOk | LuduScript/LuduScript-head/src/interpreter.cpp:234-338 | no operator produces an integer-flagged NUM holding a fraction |
| HeadEnv.EmptyEnv | LuduScript/LuduScript-head/include/interpreter.h:48-63 | a fresh environment has no scopes, no current object, no declared fields and no output |
| HeadEnv.PushScope | LuduScript/LuduScript-head/src/interpreter.cpp:118-121 | pushes one empty scope and changes nothing else |
| HeadEnv.PopScope | LuduScript/LuduScript-head/src/interpreter.cpp:123-127 | removes the innermost scope, or does nothing on an empty stack |
| HeadEnv.Binder | LuduScript/LuduScript-head/src/interpreter.cpp:136-145 | lookup finds the innermost scope binding the name, or reports that none does |
| HeadEnv.SetVar | LuduScript/LuduScript-head/src/interpreter.cpp:129-134 | after `setVar` the name reads back the value and every other name reads as before; a scope is pushed only when the stack was empty |
| HeadEnv.BinderOther | LuduScript/LuduScript-head/src/interpreter.cpp:136-145 | rebinding one name never changes where another name is found |
| HeadEnv.BinderWritten | LuduScript/LuduScript-head/src/interpreter.cpp:136-145 | writing a name into a scope with no binder above it makes that scope its innermost binder |
| HeadEnv.ToField | LuduScript/LuduScript-head/src/interpreter_stmt.cpp:42-66 | a value is stored as an integer, float, boolean or string field following its kind and integer flag |
| HeadEnv.FieldValue | LuduScript/LuduScript-head/src/interpreter.cpp:203-224 | a field read back is a NUM exactly for numeric fields, integer-flagged exactly when its fractional part is zero |
| HeadEnv.FieldRoundTrip | LuduScript/LuduScript-head/src/interpreter.cpp:203-224 | storing and reading back a value gives it back, except that a whole float comes back integer-flagged |
| HeadEnv.IdField | LuduScript/LuduScript-head/src/interpreter_stmt.cpp:332-347 | an `id` that is a NUM keeps its integer flag; any other value is stored as its text |
| HeadEnv.WriteField | LuduScript/LuduScript-head/src/interpreter_stmt.cpp:42-66 | writing a field changes only that field of the current record |
| HeadEnv.Assign | LuduScript/LuduScript-head/src/interpreter_stmt.cpp:20-75 | a name bound on the stack is updated in its innermost binder with no new binding; otherwise inside an object it becomes a declared field; otherwise a variable in the innermost scope |
| HeadEnv.Declare | LuduScript/LuduScript-head/src/interpreter_stmt.cpp:189-205 | inside an object a declaration writes and declares the field; outside, it binds the variable |
| HeadInterp.LitValue | LuduScript/LuduScript-head/src/interpreter.cpp:181-194 | each literal kind becomes the matching value |
| HeadInterp.EvalIdent | LuduScript/LuduScript-head/src/interpreter.cpp:196-232 | a variable first, then a declared field, then inside an object the name as text; it fails with "Undefined variable" exactly when none applies |
| HeadInterp.Eval | LuduScript/LuduScript-head/src/interpreter.cpp:164-179 | results keep the integer-flag invariant; calls and member accesses always fail with their fixed messages |
| HeadInterp.WritesKeepEnvOk | LuduScript/LuduScript-head/src/interpreter.cpp:118-134 | binding a well-formed value, pushing and popping keep every bound value well-formed |
| HeadInterp.ExecStmt | LuduScript/LuduScript-head/src/interpreter_stmt.cpp:4-386 | a balanced statement keeps the scope depth unless it fails; `break` never completes normally; a completed `obj` appends output and clears the record and the declared fields |
| HeadInterp.ExecDecl | LuduScript/LuduScript-head/src/interpreter_stmt.cpp:79-205 | a declaration without initialiser binds the type default; with an initialiser expression it binds that value, or stops with the evaluation error and the environment unchanged; with an initialiser block it stops with the block's signal if the block fails, and otherwise binds the block's value (the last value produced, else the last inner variable read before the scope is popped, else the default) after popping the block's scope |
| HeadInterp.ExecFor | LuduScript/LuduScript-head/src/interpreter_stmt.cpp:240-322 | a balanced `for` keeps the scope depth unless it fails, and absorbs `break`/`continue` |
| HeadInterp.ExecObj | LuduScript/LuduScript-head/src/interpreter_stmt.cpp:324-361 | a completed `obj` appends a record, then clears the current object and the declared fields |
| HeadInterp.ExecStmts | LuduScript/LuduScript-head/src/interpreter_stmt.cpp:455-460 | running statements in order keeps the depth of balanced code, raises no loop signal outside loops, and only ever appends to the output |
| HeadInterp.ExecBlock | LuduScript/LuduScript-head/src/interpreter_stmt.cpp:455-460 | a balanced block keeps the scope depth unless it fails |
| HeadInterp.ExecBranches | LuduScript/LuduScript-head/src/interpreter_stmt.cpp:209-238 | the `elif`/`else` chain keeps the invariants of the blocks it may run |
| HeadInterp.ForBounds | LuduScript/LuduScript-head/src/interpreter_stmt.cpp:244-262 | one argument counts from 1 with step 1; two give step 1; bounds fail exactly when an argument fails to evaluate |
| HeadInterp.ForLoop | LuduScript/LuduScript-head/src/interpreter_stmt.cpp:266-320 | the iterations stop on `break`, go on after `continue`, and keep the depth of balanced bodies |
| HeadInterp.Default | LuduScript/LuduScript-head/src/interpreter_stmt.cpp:160-172 | the defaults are `0.0`, `""` and `false` |
| HeadInterp.InitBlock | LuduScript/LuduScript-head/src/interpreter_stmt.cpp:86-155 | a trailing expression or `if` always produces a value; with no expression statement and no trailing `if`, none is produced |
| HeadInterp.ExecIfWithReturn | LuduScript/LuduScript-head/src/interpreter_stmt.cpp:388-417 | the chosen branch runs as a value block, and its value is well-formed |
| HeadInterp.BranchesWithReturn | LuduScript/LuduScript-head/src/interpreter_stmt.cpp:396-417 | the `elif`/`else` chain of a value `if` keeps the invariants |
| HeadInterp.BlockWithReturn | LuduScript/LuduScript-head/src/interpreter_stmt.cpp:419-453 | a value block keeps the invariants of a block and yields a well-formed value |
| HeadInterp.ReturnLoop | LuduScript/LuduScript-head/src/interpreter_stmt.cpp:423-452 | without a trailing expression statement the value is the float 0 |
| HeadInterp.Execute | LuduScript/LuduScript-head/src/interpreter.cpp:148-162 | a run succeeds exactly when the statements complete normally, and its output is their records in emission order |
| HeadInterpFacts.FirstTrueElifRuns | LuduScript/LuduScript-head/src/interpreter_stmt.cpp:209-238 | after a false condition the first true `elif` runs its block and nothing else runs |
| HeadInterpFacts.NoTrueElifRunsElse | LuduScript/LuduScript-head/src/interpreter_stmt.cpp:209-238 | with every `elif` false only the `else` block runs |
| HeadInterpFacts.IfCondition | LuduScript/LuduScript-head/src/interpreter_stmt.cpp:209-238 | the condition decides between the then-block and the `elif`/`else` chain |
| HeadInterpFacts.IfRunsOneBranch | LuduScript/LuduScript-head/src/interpreter_stmt.cpp:209-238 | an `if` runs exactly the first branch whose condition holds, else the `else` block |
| HeadInterpFacts.Count | LuduScript/LuduScript-head/src/interpreter_stmt.cpp:266-320 | a loop runs no iteration exactly when its start is already out of range |
| HeadInterpFacts.Iterations | LuduScript/LuduScript-head/src/interpreter_stmt.cpp:266-320 | the iterator values are the progression `start + k*step`, all in range |
| HeadInterpFacts.ProgressionInRange | LuduScript/LuduScript-head/src/interpreter_stmt.cpp:266-320 | every counted iteration value is in range |
| HeadInterpFacts.IterationsStep | LuduScript/LuduScript-head/src/interpreter_stmt.cpp:266-320 | the iterations are the start followed by the iterations from the next value |
| HeadInterpFacts.CountStep | LuduScript/LuduScript-head/src/interpreter_stmt.cpp:266-320 | one step leaves one iteration fewer |
| HeadInterpFacts.ForLoopVisits | LuduScript/LuduScript-head/src/interpreter_stmt.cpp:266-320 | the loop visits exactly the values `start, start+step, ...` that do not pass `end`, in order |
| HeadInterpFacts.ForStatement | LuduScript/LuduScript-head/src/interpreter_stmt.cpp:240-322 | a `for` reads its bounds, treats a zero step as 1, runs those iterations in one pushed scope and pops it at the end |
| HeadInterpFacts.OneArgumentCountsFromOne | LuduScript/LuduScript-head/src/interpreter_stmt.cpp:248-255 | `for (i, n)` visits 1, 2, ..., n |
| HeadInterpFacts.BreakInsideIfLeaksScope | LuduScript/LuduScript-head/src/interpreter_stmt.cpp:455-461 | a `break` inside an `if` inside a `for` leaves one scope on the stack |
| HeadInterpFacts.DirectBreakKeepsBalance | LuduScript/LuduScript-head/src/interpreter_stmt.cpp:240-322 | the same loop with the `break` directly in its body leaves the stack balanced |
| HeadInterpFacts.NoShortCircuit | LuduScript/LuduScript-head/src/interpreter.cpp:244-249 | both operands are evaluated before the operator, so an error on the right of `&&` or `||` surfaces |
| HeadInterpFacts.InitBlockSplit | LuduScript/LuduScript-head/src/interpreter_stmt.cpp:95-134 | an initialiser block runs its leading statements one after another, stops at the first that does not complete normally, and treats only its last statement as final |
| HeadInterpFacts.InitBlockRuns | LuduScript/LuduScript-head/src/interpreter_stmt.cpp:107-133 | a statement that is neither an expression statement nor a final `if` runs as an ordinary statement, remembering a declared name |
| HeadInterpFacts.BlockEndsInExpression | LuduScript/LuduScript-head/src/interpreter_stmt.cpp:95-105 | a block ending in an expression statement gives that expression's value, evaluated in the environment the statements before it leave |
| HeadInterpFacts.DeclaresBlockExpression | LuduScript/LuduScript-head/src/interpreter_stmt.cpp:82-161 | a declaration whose block ends in an expression declares that expression's value, evaluated after the earlier statements in the block's scope, once that scope is popped |
| HeadInterpFacts.DeclarationsOnly | LuduScript/LuduScript-head/src/interpreter_stmt.cpp:115-133 | a block of declarations only produces no value and remembers the last declared name |
| HeadInterpFacts.DeclaresLastDeclared | LuduScript/LuduScript-head/src/interpreter_stmt.cpp:136-172 | a declaration whose block holds declarations only declares the last declared variable's value as the block leaves it, or the type default when that name is not bound |
| HeadInterpFacts.SignalsAfterBody | LuduScript/LuduScript-head/src/interpreter_stmt.cpp:364-382 | `break` and `continue` run their bodies first and raise their signal only when the body completes normally |
| RefactorLexer.ColumnAt | LuduScript/LuduScript-refactor/src/lexer.cpp:12-22 | the column a position shows is positive and at most one more than the position |
| RefactorLexer.Step | LuduScript/LuduScript-refactor/src/lexer.cpp:12-22 | `advance` moves one character; it increments the line and resets the column to 1 exactly on `\n`, and otherwise increments the column |
| RefactorLexer.StepTo | LuduScript/LuduScript-refactor/src/lexer.cpp:12-22 | repeated `advance` raises the line by the number of newlines passed, and keeps line and column in step with the position |
| RefactorLexer.SkipComment | LuduScript/LuduScript-refactor/src/lexer.cpp:37-41 | a comment is skipped up to the newline or NUL that ends it |
| RefactorLexer.SkipWs | LuduScript/LuduScript-refactor/src/lexer.cpp:32-46 | skipping stops at a character that is neither blank nor the start of `//`, and keeps line and column in step |
| RefactorLexer.StringEnd | LuduScript/LuduScript-refactor/src/lexer.cpp:51-53 | a string's text runs up to the next quote or NUL, or to the end of input |
| RefactorLexer.WordKind | LuduScript/LuduScript-refactor/src/lexer.cpp:68-103 | a word in the keyword table gets that keyword's kind, any other word is `IDENTIFIER` |
| RefactorLexer.ScanOperator | LuduScript/LuduScript-refactor/src/lexer.cpp:118-155 | one character is always consumed; `=`, `!`, `<`, `>` take a second one exactly when `=` follows; a lone `!` or an unlisted character is `UNKNOWN` with one-character text |
| RefactorLexer.ScanWord | LuduScript/LuduScript-refactor/src/lexer.cpp:68-103 | a word is the longest run of word characters; it is a keyword exactly when it is in the table, and otherwise an identifier |
| RefactorLexer.ScanNumber | LuduScript/LuduScript-refactor/src/lexer.cpp:59-66 | a number is the longest run of digits, with no sign and no decimal point |
| RefactorLexer.ScanStringLit | LuduScript/LuduScript-refactor/src/lexer.cpp:48-57 | a string's text is the characters after the quote exactly as written, up to the closing quote, which is consumed, or to the end of input |
| RefactorLexer.ScanToken | LuduScript/LuduScript-refactor/src/lexer.cpp:110-155 | every token makes progress, is never `EOF_TOKEN`, and starts at the column where it was found |
| RefactorLexer.TokensFrom | LuduScript/LuduScript-refactor/src/lexer.cpp:105-160 | the tokens end with exactly one `EOF_TOKEN` with empty text, and all lines and columns are positive |
| RefactorLexer.Tokenize | LuduScript/LuduScript-refactor/src/lexer.cpp:105-160 | `tokenize` always ends with exactly one `EOF_TOKEN` and no other appears, and every operator token carries its spelling |
| RefactorLexer.TokensCanonical | LuduScript/LuduScript-refactor/src/lexer.cpp:118-155 | every operator token the lexer makes has its operator's spelling as its text |
| RefactorParser.Advance | LuduScript/LuduScript-refactor/src/parser.cpp:21-31 | `advance` moves one token forward, except at `EOF_TOKEN`, which it never passes |
| RefactorParser.Consume | LuduScript/LuduScript-refactor/src/parser.cpp:33-62 | `consume` succeeds exactly when `check` does, returning that token and the next position; otherwise it fails with the diagnostic at the current token |
| RefactorParser.ParseExpression | LuduScript/LuduScript-refactor/src/parser.cpp:376-379 | a parsed expression consumes at least one token and stays within the list |
| RefactorParser.ParseLevel | LuduScript/LuduScript-refactor/src/parser.cpp:381-427 | on canonical tokens without `(` the tree has the precedence shape `Layered`: every binary operator binds at least as tightly as the level, its left operand is read at the operator's own level (left associativity) and its right operand one level tighter; at least one token is consumed |
| RefactorParser.LevelLoop | LuduScript/LuduScript-refactor/src/parser.cpp:381-427 | a level's loop stops only at a token that is not one of its operators, returns its left operand when it consumes nothing, and folding to the left keeps the precedence shape |
| RefactorParser.ParseUnary | LuduScript/LuduScript-refactor/src/parser.cpp:429-438 | on tokens without `(` a unary expression holds no binary node at its top or under a prefix; at least one token is consumed |
| RefactorParser.ParsePrimary | LuduScript/LuduScript-refactor/src/parser.cpp:440-529 | a primary consumes at least one token and, without `(`, holds no binary node at its top; a token that starts none fails with "Expect expression." |
| RefactorParser.Postfix | LuduScript/LuduScript-refactor/src/parser.cpp:463-503 | the suffix chain stops only when none of `.`, `[`, `(` follows, and returns the expression unchanged when it consumed nothing |
| RefactorParser.PostfixLayered | LuduScript/LuduScript-refactor/src/parser.cpp:463-503 | the suffix chain never puts a binary or unary node under a member access or an index: an expression with none at its top keeps that shape |
| RefactorParser.PostfixMember | LuduScript/LuduScript-refactor/src/parser.cpp:465-469 | after `.` the chain needs a name and goes on from a member access of it |
| RefactorParser.PostfixIndex | LuduScript/LuduScript-refactor/src/parser.cpp:470-475 | after `[` the chain needs an index expression and `]`, and goes on from an index node |
| RefactorParser.PostfixCall | LuduScript/LuduScript-refactor/src/parser.cpp:476-496 | after `(` the chain needs an argument list and `)`, and goes on from what the call makes of the expression |
| RefactorParser.CallOn | LuduScript/LuduScript-refactor/src/parser.cpp:488-497 | `(args)` after a bare name makes a call of that name; after anything else the arguments are dropped and the expression is kept as it was |
| RefactorParser.ExprList | LuduScript/LuduScript-refactor/src/parser.cpp:479-485 | a comma-separated list is empty exactly when the closer follows at once |
| RefactorParser.ListLoop | LuduScript/LuduScript-refactor/src/parser.cpp:481-484 | further elements are appended after those already read, and the loop stops at a token that is not `,` |
| RefactorParser.ParseStatement | LuduScript/LuduScript-refactor/src/parser.cpp:276-290 | a statement consumes at least one token |
| RefactorParser.ParseBlock | LuduScript/LuduScript-refactor/src/parser.cpp:306-316 | a block starts at `{` and ends right after its `}` |
| RefactorParser.BlockLoop | LuduScript/LuduScript-refactor/src/parser.cpp:309-313 | statements are kept in order, and the loop stops at `}` or the end |
| RefactorParser.ParseLet | LuduScript/LuduScript-refactor/src/parser.cpp:318-324 | `let` always has an initial value |
| RefactorParser.ParseIf | LuduScript/LuduScript-refactor/src/parser.cpp:326-350 | the then-branch is a block, and an else branch is a nested `if` (after `else if`) or a block |
| RefactorParser.CloseParen | LuduScript/LuduScript-refactor/src/parser.cpp:329-335 | a condition opened with `(` must be closed by `)`; without one nothing is consumed |
| RefactorParser.ParseFor | LuduScript/LuduScript-refactor/src/parser.cpp:292-304 | `for` yields a for statement |
| RefactorParser.ParseReturn | LuduScript/LuduScript-refactor/src/parser.cpp:352-360 | `return` has no value exactly when the next token is `}` |
| RefactorParser.ParseExprStmt | LuduScript/LuduScript-refactor/src/parser.cpp:362-374 | an expression followed by `=` becomes an assignment with that expression as target; otherwise an expression statement |
| RefactorParser.DisplayName | LuduScript/LuduScript-refactor/src/parser.cpp:132-142 | the display name is the following STRING when there is one, and the declared name otherwise |
| RefactorParser.GameLoop | LuduScript/LuduScript-refactor/src/parser.cpp:72-102 | the member loop keeps the game's name and only appends roles and phases, and stops at `}` or the end |
| RefactorParser.GameMember | LuduScript/LuduScript-refactor/src/parser.cpp:74-101 | one member is dispatched on its keyword; a role is appended; a token that starts no member is skipped |
| RefactorParser.ParseConfig | LuduScript/LuduScript-refactor/src/parser.cpp:109-130 | an empty `config {}` leaves both player counts at their default 0 |
| RefactorParser.ConfigLoop | LuduScript/LuduScript-refactor/src/parser.cpp:116-127 | the entry loop stops at `}` or the end |
| RefactorParser.ConfigEntry | LuduScript/LuduScript-refactor/src/parser.cpp:122-126 | only `min_players` and `max_players` are kept, converted with `stoi`, which fails exactly when the number does not fit |
| RefactorParser.StoiResult | LuduScript/LuduScript-refactor/src/parser.cpp:122-126 | `stoi` succeeds exactly on text it can convert |
| RefactorParser.ParseRole | LuduScript/LuduScript-refactor/src/parser.cpp:132-142 | a role is named by the identifier after `role` |
| RefactorParser.ParseVar | LuduScript/LuduScript-refactor/src/parser.cpp:144-158 | `var name : type [= expr]` consumes at least one token |
| RefactorParser.ParseAction | LuduScript/LuduScript-refactor/src/parser.cpp:160-196 | `action` consumes at least one token |
| RefactorParser.ActionLoop | LuduScript/LuduScript-refactor/src/parser.cpp:172-193 | the action's entry loop keeps its name and display name |
| RefactorParser.ParsePhase | LuduScript/LuduScript-refactor/src/parser.cpp:198-224 | `phase` consumes at least one token |
| RefactorParser.PhaseLoop | LuduScript/LuduScript-refactor/src/parser.cpp:210-221 | steps are kept in source order |
| RefactorParser.ParseStep | LuduScript/LuduScript-refactor/src/parser.cpp:226-274 | `step` consumes at least one token |
| RefactorParser.StepLoop | LuduScript/LuduScript-refactor/src/parser.cpp:240-271 | the step's entry loop keeps its name |
| RefactorParser.IdentTextsAppend | LuduScript/LuduScript-refactor/src/parser.cpp:255-265 | the identifier texts of two token runs are those of each run, in order |
| RefactorParser.RolesLoop | LuduScript/LuduScript-refactor/src/parser.cpp:255-265 | the roles added are exactly the identifiers read, in order, and the loop stops at `]` or the end |
| RefactorParser.RoleSeparator | LuduScript/LuduScript-refactor/src/parser.cpp:260-261 | after a role name, nothing is consumed before `]`; otherwise a comma is required |
| RefactorParserFacts.PrefixesNest | LuduScript/LuduScript-refactor/src/parser.cpp:429-438 | a run of n `not`/`-` prefixes before a primary nests into n unary nodes around that primary, the first operator outermost |
| RefactorParserFacts.LoopStops | LuduScript/LuduScript-refactor/src/parser.cpp:381-427 | a level's loop stops at a token that is not its operator |
| RefactorParserFacts.LoopTakes | LuduScript/LuduScript-refactor/src/parser.cpp:381-427 | a level's loop folds an operator and the next operand into the left operand, then goes on |
| RefactorParserFacts.LevelStarts | LuduScript/LuduScript-refactor/src/parser.cpp:381-427 | a level parses its first operand one level up, then runs its loop |
| RefactorParserFacts.OperandIsExpression | LuduScript/LuduScript-refactor/src/parser.cpp:376-427 | an operand followed by no lower-level operator is the whole expression |
| RefactorParserFacts.NameStartsChain | LuduScript/LuduScript-refactor/src/parser.cpp:458-504 | a name starts a postfix chain, and the operand is what the chain builds |
| RefactorParserFacts.ChainStops | LuduScript/LuduScript-refactor/src/parser.cpp:498-501 | a chain ends at a token other than `.`, `[`, `(` |
| RefactorParserFacts.ChainMember | LuduScript/LuduScript-refactor/src/parser.cpp:465-469 | `.name` extends the chain with a member access |
| RefactorParserFacts.ChainCall | LuduScript/LuduScript-refactor/src/parser.cpp:476-497 | `(args)` extends the chain with a call of a bare name, and leaves anything else unchanged |
| RefactorParserFacts.NameUnary | LuduScript/LuduScript-refactor/src/parser.cpp:458-504 | a name with no suffix is a variable |
| RefactorParserFacts.NumberUnary | LuduScript/LuduScript-refactor/src/parser.cpp:449-452 | a number is a literal of type "number" |
| RefactorParserFacts.NameOperand | LuduScript/LuduScript-refactor/src/parser.cpp:417-438 | a name not followed by a suffix or a factor operator is a complete factor operand |
| RefactorParserFacts.NameExpression | LuduScript/LuduScript-refactor/src/parser.cpp:376-427 | a name followed by the end, `)`, `]`, `{`, `}`, `,` or `=` is a whole expression |
| RefactorParserFacts.OneArgument | LuduScript/LuduScript-refactor/src/parser.cpp:479-485 | a list with one expression and no comma has one element |
| RefactorParserFacts.EmptyBlock | LuduScript/LuduScript-refactor/src/parser.cpp:306-316 | `{}` is an empty block |
| RefactorParserFacts.IfWithoutElse | LuduScript/LuduScript-refactor/src/parser.cpp:326-350 | an `if` without `else` has no else branch; parentheses are optional |
| RefactorParserFacts.IfElseIf | LuduScript/LuduScript-refactor/src/parser.cpp:338-347 | `else if` becomes a nested `if` in the else branch |
| RefactorParserFacts.AssignmentStatement | LuduScript/LuduScript-refactor/src/parser.cpp:362-374 | an expression followed by `=` is an assignment whose target is that whole expression |
| RefactorParseExamples.SubtractionGroupsLeft | LuduScript/LuduScript-refactor/src/parser.cpp:405-415 | `a - b - c` parses as `(a - b) - c` |
| RefactorParseExamples.SubtractionLoop | LuduScript/LuduScript-refactor/src/parser.cpp:405-415 | after the first name of `a - b - c`, the term loop folds `b` and then `c` into the left operand |
| RefactorParseExamples.ProductBindsTighter | LuduScript/LuduScript-refactor/src/parser.cpp:405-427 | `a + b * c` parses as `a + (b * c)` |
| RefactorParseExamples.CallOnName | LuduScript/LuduScript-refactor/src/parser.cpp:476-493 | `f(x)` is a call of `f` |
| RefactorParseExamples.CallAfterMemberIsDropped | LuduScript/LuduScript-refactor/src/parser.cpp:476-497 | in `o.m(x)` the arguments are dropped, leaving the member access |
| RefactorParseExamples.IfEmptyBlock | LuduScript/LuduScript-refactor/src/parser.cpp:326-350 | `if c {}` has an empty then-block and no else branch |
| RefactorParseExamples.ElseIfNests | LuduScript/LuduScript-refactor/src/parser.cpp:338-347 | `if c {} else if d {}` nests the second `if` in the else branch |
| RefactorParseExamples.MemberTarget | LuduScript/LuduScript-refactor/src/parser.cpp:465-469 | `o.f` before `=` is one member-access expression |
| RefactorParseExamples.NumberExpression | LuduScript/LuduScript-refactor/src/parser.cpp:449-452 | a number before an ender is a literal expression |
| RefactorParseExamples.MemberAssignment | LuduScript/LuduScript-refactor/src/parser.cpp:362-374 | `o.f = 1` assigns to the member access `o.f` |
| PyText.Indent | LuduScript/LuduScript-refactor/src/codegen.cpp:5-11 | `indent` emits exactly four spaces per level |
| PyText.IndentAdds | LuduScript/LuduScript-refactor/src/codegen.cpp:5-11 | indentation of a sum of levels is the concatenation of their indentations |
| PyText.RenderAppend | LuduScript/LuduScript-refactor/src/codegen.cpp:5-11 | rendering two runs of lines is the concatenation of their renderings |
| RefactorCodegen.OperatorText | LuduScript/LuduScript-refactor/src/codegen.cpp:440-450 | a binary operator prints with single spaces around it |
| RefactorCodegen.CallPrefix | LuduScript/LuduScript-refactor/src/codegen.cpp:462-513 | `len` stays `len(`; `vote` and `discussion` become `dsl_vote(game, ` and `dsl_discussion(game, ` |
| RefactorCodegen.HelperCallPrefix | LuduScript/LuduScript-refactor/src/codegen.cpp:462-513 | each of the seven known game helpers prints as `helper(game, `, the game passed first |
| RefactorCodegen.MethodCallPrefix | LuduScript/LuduScript-refactor/src/codegen.cpp:462-513 | any name that is no helper, not `len` and not `vote` or `discussion` prints as a method of the game, `game.name(` |
| RefactorCodegen.ExprText | LuduScript/LuduScript-refactor/src/codegen.cpp:426-551 | a string literal is wrapped in double quotes and any other literal prints raw |
| RefactorCodegen.Texts | LuduScript/LuduScript-refactor/src/codegen.cpp:462-538 | the printed texts of a list of expressions, one each, in order |
| RefactorCodegen.ArgsAreCommaJoined | LuduScript/LuduScript-refactor/src/codegen.cpp:516-522 | the argument loop prints exactly the argument texts joined by `, ` |
| RefactorCodegen.CallAndListText | LuduScript/LuduScript-refactor/src/codegen.cpp:462-538 | a call prints its prefix, the comma-joined arguments and `)`; a list prints `[a, b, ...]` |
| RefactorCodegen.GroupingIsLost | LuduScript/LuduScript-refactor/src/codegen.cpp:440-450 | no parentheses are printed, so both groupings of `a op b op c` print the same text |
| RefactorCodegen.StmtLines | LuduScript/LuduScript-refactor/src/codegen.cpp:342-424 | a statement prints at least one line, the first at the current level and none shallower; `if` prints `if cond:` with a deeper then-branch |
| RefactorCodegen.BlockLines | LuduScript/LuduScript-refactor/src/codegen.cpp:342-354 | an empty block prints a single `pass`; otherwise its statements in order |
| RefactorCodegen.StmtsFrom | LuduScript/LuduScript-refactor/src/codegen.cpp:349-353 | each statement contributes at least one line, none shallower than the block |
| RefactorCodegen.IfElseLayout | LuduScript/LuduScript-refactor/src/codegen.cpp:376-393 | `else:` sits at the level of the `if`, after the then-branch and before the deeper else-branch, so the level is restored |
| RefactorCodegen.TextStartsIndented | LuduScript/LuduScript-refactor/src/codegen.cpp:5-11 | a statement's text starts with the indentation of its level |
| WolfLexer.CommentEnd | src/lexer.cpp:32-37 | a `//` comment runs up to, not including, the next newline or NUL |
| WolfLexer.SkipWs | src/lexer.cpp:21-43 | skipping stops where neither a blank nor `//` starts, and the line counter grows by exactly the newlines skipped |
| WolfLexer.NumberEnd | src/lexer.cpp:57-75 | a number is the digit run, extended by a dot and the digits after it when a dot follows |
| WolfLexer.StringBody | src/lexer.cpp:78-121 | a string ends just after its closing quote, or before a newline or NUL that cuts it short |
| WolfLexer.ScanOperator | src/lexer.cpp:144-232 | `=`, `!`, `<`, `>` take a following `=`; `&&` and `\|\|` are two characters while a lone `&` or `\|` is unknown; the other punctuation is one character; the token text is the characters read |
| WolfLexer.NextToken | src/lexer.cpp:124-232 | after whitespace, NUL gives `END` with empty text and no move; a letter or `_` starts an identifier, a digit a number, a quote a string; the token's line is the counter after skipping |
| WolfLexer.EndRepeats | src/lexer.cpp:128-130 | once `END` is reached every further call gives the same `END` |
| WolfLexer.TrailingDotIsKept | src/lexer.cpp:64-71 | `12.` followed by a non-digit lexes as the number `12.` |
| WolfLexer.DigitsRunTo | src/lexer.cpp:61 | the digit run stops at the first non-digit |
| WolfLexer.EscapedStep | src/lexer.cpp:93-116 | a backslash and the character after it decode to one character, two positions on |
| WolfLexer.PlainStep | src/lexer.cpp:118 | any other character is kept as it is |
| WolfLexer.EscapeCharDecodes | src/lexer.cpp:99-113 | newline, tab, quote and backslash written with a backslash decode back to themselves |
| WolfLexer.StringRoundTrip | src/lexer.cpp:78-121 | a NUL-free text written with escapes and closed by a quote lexes back to exactly that text, ending after the quote |
| WolfLexer.ReadsWritten | src/lexer.cpp:83-119 | one written character is read back by one step of the string loop |
| WolfLexer.Tokenize | src/lexer.cpp:124-232 | the token stream the parser pulls ends with exactly one `END` |
| WolfLexer.Lex | src/lexer.cpp:124-232 | lexing from the start gives a stream with one final `END` and no other |
| WolfParser.Next | src/parser.cpp:11-16 | `consume` moves to the next token, and at `END` stays there |
| WolfParser.Consume | src/parser.cpp:11-16 | consuming changes only the position |
| WolfParser.Fail | src/parser.cpp:56-62 | an error sets the flag and replaces the message; position, context and every definition are untouched and parsing goes on |
| WolfParser.Expect | src/parser.cpp:38-45 | one token is consumed either way; the record changes only when the kind is wrong, and then by that error |
| WolfParser.ExpectWord | src/parser.cpp:47-54 | the same for one particular identifier |
| WolfParser.InGameCheck | src/parser.cpp:64-70 | outside a game the `... must be inside a game definition` error is recorded, inside nothing changes |
| WolfParser.NotTopCheck | src/parser.cpp:72-78 | at top level the `... cannot be at top level` error is recorded, elsewhere nothing changes |
| WolfParser.ParseExpression | src/parser.cpp:607-638 | the expression is the texts of every token before the first `;`, `)`, `}`, `,`, `END` or block keyword, each followed by a space, and parsing stops at that token |
| WolfParser.LineEnd | src/parser.cpp:666-683 | a line runs to the first `;`, `}`, `END` or block keyword |
| WolfParser.StatementStepAsWritten | src/parser.cpp:659-699 | one outer round as written consumes the line and an optional `;` |
| WolfParser.KeywordLineStalls | src/parser.cpp:659-699 | a line that starts with a block keyword makes a round that changes nothing, so the loop never ends |
| WolfParser.StatementList | src/parser.cpp:657-702 | the corrected list stops exactly at the first `}` or `END` and every line is non-empty and ends with a space |
| WolfParser.LinesKeepEveryToken | src/parser.cpp:657-702 | the lines put together are the spaced texts of every token of the list except the `;` separators |
| WolfParser.SemiDropped | src/parser.cpp:661-665 | a leading `;` leaves no trace in the lines |
| WolfParser.LineThenRest | src/parser.cpp:666-696 | a line, an optional `;` and the rest lose only the `;` |
| WolfParser.Condition | src/parser.cpp:532-536 | a parenthesised condition changes the record only by errors |
| WolfParser.Body | src/parser.cpp:537-541 | a braced statement list changes the record only by errors |
| WolfParser.EnumMembers | src/parser.cpp:222-239 | the roles read are exactly the identifiers before the closing `}` or `END`, in order |
| WolfParser.MemberStep | src/parser.cpp:224-238 | one member and its comma contribute just that member's identifier |
| WolfParser.ParseEnum | src/parser.cpp:214-242 | the roles are appended to the earlier roles; phases and variables are untouched |
| WolfParser.ParamList | src/parser.cpp:277-306 | parameters are identifiers joined by commas; no parameter gets a type; with no leading identifier the list is empty and nothing is consumed |
| WolfParser.Callable | src/parser.cpp:244-272 | a header with a name records the line of its keyword; otherwise only errors change the record |
| WolfParser.ParamsAndBody | src/parser.cpp:261-270 | the parameters and body change the record only by errors |
| WolfParser.ParseAction | src/parser.cpp:244-275 | at most one action is appended and the earlier ones are kept; phases and variables are untouched |
| WolfParser.ParseMethod | src/parser.cpp:480-511 | at most one method is appended and the earlier ones are kept |
| WolfParser.ParseSetup | src/parser.cpp:513-528 | the setup is replaced by one carrying the line of `setup` |
| WolfParser.NamePos | src/parser.cpp:441-463 | the name follows the type word, or the `(` after it |
| WolfParser.ParseVariable | src/parser.cpp:432-478 | both `num x` and `num(x)` store the variable under its name with its type word and line, replacing an earlier one of that name and keeping the others; a missing name records `Expected variable name` and stores nothing |
| WolfParser.VariableRest | src/parser.cpp:449-478 | from the name on, the variable is stored under that name |
| WolfParser.StoreVariable | src/parser.cpp:466-477 | only the entry under the name changes, and it has that name, type and line |
| WolfParser.StepRoles | src/parser.cpp:381-398 | the roles are identifiers before `with` or `if`, never those words, and none are read exactly when the position does not move |
| WolfParser.AddStep | src/parser.cpp:426-429 | a step goes to the end of the last phase, the rest of the record unchanged; with no phase it is dropped |
| WolfParser.ParseStep | src/parser.cpp:361-430 | outside a phase the `step must be inside a phase` error and nothing consumed; otherwise only the last phase can change and variables stay |
| WolfParser.StepTail | src/parser.cpp:400-429 | the rest of a header changes only the last phase |
| WolfParser.StepBody | src/parser.cpp:409-429 | the condition and body change only the last phase |
| WolfParser.ExprStatement | src/parser.cpp:595-605 | inside a game, at a token that ends an expression other than `;`, nothing happens at all |
| WolfParser.ElifLoop | src/parser.cpp:545-555 | after the loop the current token is not `elif` |
| WolfParser.ParseIf | src/parser.cpp:530-565 | the texts are read and dropped: no definition changes |
| WolfParser.ElseTail | src/parser.cpp:557-564 | the optional `else` changes no definition |
| WolfParser.ParseFor | src/parser.cpp:567-593 | the texts are read and dropped: no definition changes |
| WolfParser.ForArguments | src/parser.cpp:581-592 | the arguments and body change the record only by errors |
| WolfParser.Guard | src/parser.cpp:207-211 | after a round that left the same token (kind, line, text) current, one more is consumed, so at any token but `END` the position moves |
| WolfParser.PhaseRoundAsWritten | src/parser.cpp:332-352 | one round of the phase loop as written changes only the last phase |
| WolfParser.PhaseRoundStalls | src/parser.cpp:332-352 | a `)` or `,` in a phase body makes a round that changes nothing, so the loop never ends |
| WolfParser.PhaseRound | src/parser.cpp:332-352 | with the guard, a round moves at any token but `END` |
| WolfParser.PhaseLoop | src/parser.cpp:332-354 | the loop stops at `}` or `END` and only the last phase gains steps |
| WolfParser.EarlierPhasesChain | src/parser.cpp:426-429 | keeping the earlier phases composes |
| WolfParser.ParsePhase | src/parser.cpp:308-359 | at most one phase is appended and the earlier ones are kept |
| WolfParser.PhaseBody | src/parser.cpp:324-358 | the phase is appended before its body is read, so its steps go to it |
| WolfParser.InGameDispatch | src/parser.cpp:151-202 | the keyword dispatch (plus a `game` branch that rejects a nested game, which the source lacks; see Findings) moves forward through the tokens and keeps the game name and the game flag |
| WolfParser.InGameBlock | src/parser.cpp:151-212 | with the guard, a round moves at any token but `END` |
| WolfParser.InGameBlockAsWritten | src/parser.cpp:151-212 | the dispatch as written, where `game` is not dispatched on |
| WolfParser.NestedGameIsSkipped | src/parser.cpp:195-211 | as written, `game` inside a game is skipped over with no error |
| WolfParser.NestedGameIsRejected | src/parser.cpp:119-123 | with `game` dispatched, a nested game records `Nested game definitions are not allowed` and moves on one token |
| WolfParser.GameLoop | src/parser.cpp:142-145 | the game's rounds stop at `}` or `END` |
| WolfParser.GameDefinition | src/parser.cpp:117-150 | the game name is the identifier after `game`; without one the `Expected game name` error is recorded after consuming `game` alone; the parser is back at top level afterwards |
| WolfParser.GameBody | src/parser.cpp:138-149 | after the body the parser is outside any game and at top level |
| WolfParser.TopRound | src/parser.cpp:99-113 | any identifier but `game` records `Only 'game' definition is allowed at top level` and is consumed; any other token is consumed silently |
| WolfParser.TopLoop | src/parser.cpp:97-115 | the top level runs to `END` |
| WolfParser.ParseTokens | src/parser.cpp:80-95 | an empty source gives the empty record |
| WolfRuntime.FromString | include/interpreter.h:39-61 | `num` gives a number, `str` the text with its spaces trimmed, `bool` true exactly when the trimmed text is `true` in any case, any other type word no value |
| WolfRuntime.NumberRoundTrip | include/interpreter.h:42-48 | a number written in decimal with spaces around it decodes to itself |
| WolfRuntime.SetVar | include/interpreter.h:81-84 | only the variables change |
| WolfRuntime.GetVar | include/interpreter.h:87-94 | a bound name gives its value, any other name the undefined-variable error naming it |
| WolfRuntime.SetThenGet | include/interpreter.h:81-94 | a variable reads back the value just set, and other names read as before |
| WolfRuntime.RegisterAction | include/interpreter.h:97-100 | only the actions change |
| WolfRuntime.GetAction | include/interpreter.h:103-110 | a registered name gives its action, any other the undefined-action error naming it |
| WolfRuntime.SetError | include/interpreter.h:113-117 | the flag is set and the message replaced; nothing else changes |
| WolfRuntime.RegisterAll | include/interpreter.h:134-137 | the names registered are the earlier ones and those of the actions given |
| WolfRuntime.LastRegistrationWins | include/interpreter.h:97-100 | of several actions with one name, the last is kept |
| WolfRuntime.NotRegisteredKeeps | include/interpreter.h:134-137 | an entry no new action names is kept |
| WolfRuntime.Init | include/interpreter.h:125-158 | game name and roles are copied, every variable is decoded from its type word and text, and the environment is in error exactly when parsing was, with the parse-error message |
| WolfRuntime.ExecuteStep | src/interpreter.cpp:41-81 | nothing after an error; a step naming an unregistered action sets the step-failed error; every other step changes nothing |
| WolfRuntime.ExecuteSteps | src/interpreter.cpp:33-38 | the steps never change the actions |
| WolfRuntime.FirstUnresolved | src/interpreter.cpp:33-38 | the index of the first step naming an unknown action, or none when every step resolves |
| WolfRuntime.StepsReportFirstFailure | src/interpreter.cpp:26-81 | the steps leave the environment alone unless one names an unknown action, and then record the first such step's error |
| WolfRuntime.ExecutePhase | src/interpreter.cpp:26-39 | nothing after an error |
| WolfRuntime.PhasesAreTheirSteps | include/interpreter.h:175-180 | running phase after phase is running all their steps back to back |
| WolfRuntime.StepsAppend | src/interpreter.cpp:33-38 | running two step lists one after the other is running them joined |
| WolfRuntime.Run | include/interpreter.h:161-181 | an environment already in error runs nothing |
| WolfRuntime.ParseErrorStopsRun | include/interpreter.h:154-168 | with a parse error, `run` leaves the environment as the constructor made it |
| WolfRuntime.RunReportsFirstFailure | include/interpreter.h:125-181 | without a parse error, the run ends with the error of the first step over all phases that names an unknown action, or unchanged |
| WolfRuntime.EscapeJson | src/interpreter.cpp:6-24 | escaping never shortens |
| WolfRuntime.EscapeJsonRoundTrip | src/interpreter.cpp:6-24 | a JSON reading of the escaped text gives the text back |
| WolfRuntime.EscapeJsonKeepsPlain | src/interpreter.cpp:19-20 | text without `"` or `\` is unchanged |
| WolfRuntime.ExportJson | src/interpreter.cpp:83-99 | the object ends with the escaped `error_msg` field exactly when there is an error, and with `"has_error":false}` otherwise |
| Chars.ToUpper | LuduScript/LuduScript-main/src/werewolf_generator.cpp:68 | `toupper` moves exactly the ASCII lower-case letters to upper case, 32 code points down, and keeps every other character |
| Chars.ToLower | src/generator.cpp:48-50 | `tolower` moves exactly the ASCII upper-case letters to lower case, 32 code points up, and keeps every other character |
| Chars.UpperAll | LuduScript/LuduScript-main/src/werewolf_generator.cpp:66-68 | upper-casing a string keeps its length and maps each character on its own through `toupper` |
| Chars.LowerAll | LuduScript/LuduScript-main/src/werewolf_generator.cpp:262-264 | lower-casing a string keeps its length and maps each character on its own through `tolower` |
| Text.Trim | src/generator.cpp:13-20 | the result has no blank at either end, and it is empty exactly when the text is all blanks |
| Text.TrimBounds | src/generator.cpp:15-19 | everything before the first kept character and after the last is blank |
| Text.TrimAround | src/generator.cpp:13-20 | trimming blanks from around a word with no blank at its ends gives the word |
| Text.TrimIdempotent | src/generator.cpp:13-20 | trimming twice is trimming once |
| Text.Find | src/generator.cpp:129-136 | `find` gives the first occurrence at or after the start, or none when there is none |
| Text.ReplaceAbsent | src/generator.cpp:78-100 | a replacement loop leaves text without the pattern unchanged |
| Text.ReplaceKeepsCount | LuduScript/LuduScript-main/src/generator.cpp:537-540 | replacing a pattern by text holding a character equally often keeps that character's count |
| Text.Split | src/generator.cpp:133-142 | the pieces between separators are one more than the separators and hold none |
| Text.SplitJoin | src/generator.cpp:133-142 | joining the pieces with the separator gives the text back |
| Text.JoinSplit | src/generator.cpp:133-142 | splitting separator-free pieces joined with the separator gives the pieces back |
| PyLiteral.NumberScan | src/generator.cpp:29-40 | the loop accepts exactly the digits and dots with at most one dot and at least one digit |
| PyLiteral.LooksLikeNumber | src/generator.cpp:22-41 | exactly the texts with an optional sign followed by digits and at most one dot, at least one digit among them |
| PyLiteral.NumberShapes | src/generator.cpp:22-41 | `-123` and `123.` are numbers, and no text holding a letter is |
| RootGenerator.ToPythonLiteral | src/generator.cpp:43-72 | empty is `None`; `true`/`false` in any case become `True`/`False`; quoted text, numbers and identifiers are kept; anything else is double-quoted |
| RootGenerator.LiteralIdempotent | src/generator.cpp:43-72 | converting a converted value again changes nothing |
| RootGenerator.KeptWord | src/generator.cpp:46-54 | `None`, `True` and `False` convert to themselves |
| RootGenerator.KeptQuoted | src/generator.cpp:55-56 | double-quoted text converts to itself |
| RootGenerator.Bangs | src/generator.cpp:76-100 | the intended rewrite of `!`: afterwards every `!` is followed by `=` |
| RootGenerator.BangStagesAgree | src/generator.cpp:76-100 | on text without `__NE`, the three loops as written do exactly the intended rewrite |
| RootGenerator.BangsKeeps | src/generator.cpp:76-100 | text whose every `!` is followed by `=` is left alone |
| RootGenerator.PlaceholderClash | src/generator.cpp:76-100 | the text `__NE__` comes out as `!=` though it holds no `!` |
| RootGenerator.MarkedStep | src/generator.cpp:77-92 | the first two loops turn `!=` into the placeholder, any other `!` into `not `, and keep every other character |
| RootGenerator.MarkedKeepsPlain | src/generator.cpp:77-92 | text without `!` passes the first two loops unchanged |
| RootGenerator.Words | src/generator.cpp:104-108 | the words read are non-empty and hold no blank |
| RootGenerator.UnwordsSpaced | src/generator.cpp:117-120 | the words written back are separated by single spaces, with none at either end |
| RootGenerator.WordsUnwords | src/generator.cpp:104-121 | reading back the words written gives them again |
| RootGenerator.LeadingSpace | src/generator.cpp:108 | a leading space does not change the words |
| RootGenerator.FixBool | src/generator.cpp:110-116 | a non-empty word without blanks stays so |
| RootGenerator.FixBoolKeeps | src/generator.cpp:110-116 | fixing a word twice is fixing it once, and `!` followed by `=` survives it |
| RootGenerator.Normalize | src/generator.cpp:74-123 | the normalized expression is single-spaced |
| RootGenerator.NormalizeAsWritten | src/generator.cpp:74-123 | the function as written gives single-spaced text, the same as the intended rewrite on text without `__NE` |
| RootGenerator.NormalizeIdempotent | src/generator.cpp:74-123 | normalizing twice is normalizing once |
| RootGenerator.PrintPart | src/generator.cpp:144-178 | a quoted part loses its quotes, an identifier becomes `{name}`, any other part is kept |
| RootGenerator.TransformPrintContent | src/generator.cpp:125-202 | with a `+` the result is an f-string; without one, empty is `""`, quoted text and identifiers are kept, and anything else is double-quoted |
| RootGenerator.PlainPrintIdempotent | src/generator.cpp:183-201 | without `+`, rewriting twice is rewriting once |
| RootGenerator.TextPlusName | src/generator.cpp:129-180 | `"x" + w` becomes the f-string `x {w}` |
| RootGenerator.TwoParts | src/generator.cpp:129-180 | two `+`-free parts joined by ` + ` give the f-string of the two |
| RootGenerator.PlusForm | src/generator.cpp:129-180 | with a `+` the output is the f-string of the trimmed parts between the `+` signs |
| RootGenerator.DropChar | src/generator.cpp:216 | every `;` is removed and nothing else |
| RootGenerator.PrintCalls | src/generator.cpp:220-243 | taking `print(...)` calls out never lengthens the line |
| RootGenerator.CallsOfPrint | src/generator.cpp:220-243 | a line that is one `print(x)` call gives the argument `x` and leaves nothing |
| RootGenerator.LineOut | src/generator.cpp:212-256 | every line gives at least one output line, all at the block's level |
| RootGenerator.PlainLine | src/generator.cpp:245-256 | a line without `print` gives its normalized text without semicolons, or `pass` when nothing is left |
| RootGenerator.PrintLine | src/generator.cpp:212-256 | a line holding one `print` call, with or without `;`, gives that call with its argument rewritten |
| RootGenerator.TranslateBody | src/generator.cpp:204-259 | no lines give `pass`; otherwise at least one output line per input line, all at the given level |
| RootGenerator.DropNone | src/generator.cpp:216 | text without `;` loses nothing |
| MainGenerator.DropBom | LuduScript/LuduScript-main/src/generator.cpp:10-14 | a leading UTF-8 byte-order mark is dropped and nothing else |
| MainGenerator.TrimStrBom | LuduScript/LuduScript-main/src/generator.cpp:7-20 | without a byte-order mark this `trimStr` is the other generator's, and with one it is that `trimStr` of the rest |
| MainGenerator.ToPythonLiteral | LuduScript/LuduScript-main/src/generator.cpp:107-138 | empty is `None`, `true`/`false` in any case become `True`/`False`, and `[]` and `[ ]` become `[]` |
| MainGenerator.LiteralViaRoot | LuduScript/LuduScript-main/src/generator.cpp:107-138 | apart from the list case, the conversion is the other generator's conversion of the text after its byte-order mark |
| MainGenerator.RootLiteralShape | LuduScript/LuduScript-main/src/generator.cpp:107-138 | a converted value has no blank at its ends, is never `[]`, and starts with a quote, a word character, a sign or a dot |
| MainGenerator.LiteralIdempotent | LuduScript/LuduScript-main/src/generator.cpp:107-138 | converting a converted value again changes nothing |
| MainGenerator.ListIsKept | LuduScript/LuduScript-main/src/generator.cpp:118-119 | `[]` converts to itself |
| MainGenerator.RootResultKept | LuduScript/LuduScript-main/src/generator.cpp:107-138 | a value the other generator converted is converted here as there |
| MainGenerator.NumberStart | LuduScript/LuduScript-main/src/generator.cpp:86-105 | a number starts with a sign, a digit or a dot |
| MainGenerator.Camel | LuduScript/LuduScript-main/src/generator.cpp:753-768 | the underscores are dropped and nothing else, so the length shrinks by their number |
| MainGenerator.CamelBySegments | LuduScript/LuduScript-main/src/generator.cpp:753-768 | the result is the name split at its underscores, each piece capitalized, run together |
| MainGenerator.MapActionToClassName | LuduScript/LuduScript-main/src/generator.cpp:751-773 | the class name holds no underscore and contains `Action`, which is appended only when the camel form lacks it |
| MainGenerator.ClassNameIdempotent | LuduScript/LuduScript-main/src/generator.cpp:751-773 | the class name of a class name is itself |
| MainGenerator.CamelFixed | LuduScript/LuduScript-main/src/generator.cpp:753-768 | text without underscores starting upper-case is its own camel form |
| MainGenerator.TrimKeepsCount | LuduScript/LuduScript-main/src/generator.cpp:7-20 | trimming keeps the count of every character other than blanks and the mark |
| MainGenerator.Closers | LuduScript/LuduScript-main/src/generator.cpp:418-419 | the appended text holds exactly the missing closers |
| MainGenerator.EraseFirstCloser | LuduScript/LuduScript-main/src/generator.cpp:421-425 | one `)` is removed and the openers are kept |
| MainGenerator.Balance | LuduScript/LuduScript-main/src/generator.cpp:412-426 | afterwards openers and closers are equally many and the openers untouched; missing closers are appended as ` )`, surplus ones erased from the front |
| MainGenerator.BalanceKeepsBalanced | LuduScript/LuduScript-main/src/generator.cpp:412-426 | balanced text is left as it is |
| MainGenerator.Ternary | LuduScript/LuduScript-main/src/generator.cpp:427-435 | without a `?` followed later by a `:` the text is unchanged |
| MainGenerator.TernaryKeepsParens | LuduScript/LuduScript-main/src/generator.cpp:427-435 | the ternary rewrite keeps every parenthesis |
| MainGenerator.DespaceFrom | LuduScript/LuduScript-main/src/generator.cpp:436-447 | the space-removal loop keeps the count of every character but the space |
| MainGenerator.DespaceOnlySpaces | LuduScript/LuduScript-main/src/generator.cpp:436-447 | only spaces are removed: with spaces taken out the text is the same |
| MainGenerator.FixCallsKeepsParens | LuduScript/LuduScript-main/src/generator.cpp:449-453 | the three final replacements keep every parenthesis |
| MainGenerator.CleanUp | LuduScript/LuduScript-main/src/generator.cpp:407-455 | after the clean-up, openers and closers are equally many |
| MainGenerator.NormalizeExpression | LuduScript/LuduScript-main/src/generator.cpp:140-455 | empty text gives empty text, `[]` and `[ ]` give `[]`, and the result always has balanced parentheses, as many openers as the rewritten text |
| MainGenerator.SplitFrom | LuduScript/LuduScript-main/src/generator.cpp:466-500 | there are at most one more parts than `+` signs |
| MainGenerator.PlainTopSplit | LuduScript/LuduScript-main/src/generator.cpp:466-500 | without quotes and parentheses the parts are the trimmed pieces between `+` signs |
| MainGenerator.QuotedPlusKept | LuduScript/LuduScript-main/src/generator.cpp:470-478 | a `+` inside a quoted text does not split it |
| MainGenerator.EscapeBraces | LuduScript/LuduScript-main/src/generator.cpp:519-530 | each brace is doubled and nothing else grows |
| MainGenerator.EscapeBracesRoundTrip | LuduScript/LuduScript-main/src/generator.cpp:519-530 | reading doubled braces back gives the literal text |
| MainGenerator.FixPrefix | LuduScript/LuduScript-main/src/generator.cpp:510-515 | stray characters between an `f` prefix and its quote are dropped, never added |
| MainGenerator.RenderPart | LuduScript/LuduScript-main/src/generator.cpp:507-531 | a part that is not a literal or an f-string literal becomes its normalized expression in braces |
| MainGenerator.TransformPrintContent | LuduScript/LuduScript-main/src/generator.cpp:458-535 | empty text is `''`; a single part goes to `normalizeExpression` after newlines are escaped; several parts make an f-string |
| MainGenerator.NoPlusDelegates | LuduScript/LuduScript-main/src/generator.cpp:458-503 | without `+` the result is the normalized expression, with balanced parentheses |
| MainGenerator.NewlinesEscaped | LuduScript/LuduScript-main/src/generator.cpp:463-465 | no newline is left in the escaped text |
| MainGenerator.RenderGen | LuduScript/LuduScript-main/src/generator.cpp:726-735 | at least one output line per generated line, the first one as generated |
| MainGenerator.OpenersHaveBodies | LuduScript/LuduScript-main/src/generator.cpp:729-735 | every line ending in `:` is followed by a deeper line, so no block is left empty |
| MainGenerator.RenderPlain | LuduScript/LuduScript-main/src/generator.cpp:729-735 | without block openers the lines are rendered as they are |
| MainGenerator.TranslateBody | LuduScript/LuduScript-main/src/generator.cpp:537-735 | no lines, or nothing built from them, give `pass`; otherwise the rendering of what was built |
| NumText.NatText | LuduScript/LuduScript-head/src/interpreter.cpp:52 | the decimal text of a number is digits with no leading zero |
| NumText.IntText | LuduScript/LuduScript-head/src/interpreter.cpp:52 | a minus sign starts the text exactly when the number is negative |
| NumText.NatTextValue | LuduScript/LuduScript-head/src/interpreter.cpp:52 | the digits written denote the number |
| NumText.Stoll | LuduScript/LuduScript-head/src/interpreter.cpp:89 | `stoll` succeeds exactly when digits follow the optional sign and the value fits 64 bits, and then gives that value |
| NumText.Stoi | LuduScript/LuduScript-refactor/src/parser.cpp:123-125 | `stoi` succeeds exactly when digits follow the optional sign and the value fits 32 bits, and gives the value `atoi` reads |
| NumText.IntTextRoundTrip | include/interpreter.h:48 | `atoi` reads back the decimal text of any number, and `stoll` does within 64 bits |
| NumText.StollDigits | LuduScript/LuduScript-head/src/parser_expr.cpp:138 | `stoll` of a plain digit run gives its value when it fits 64 bits and fails otherwise |
| NumText.DecimalValue | LuduScript/LuduScript-head/src/parser_expr.cpp:133 | a literal without a fraction denotes its whole part, and no literal is negative |
| WerewolfGenerator.RoleMembers | LuduScript/LuduScript-main/src/werewolf_generator.cpp:53-71 | with no declared role the six defaults; otherwise one member per declared role, in order |
| WerewolfGenerator.GenerateEnums | LuduScript/LuduScript-main/src/werewolf_generator.cpp:47-80 | both enum classes have a body (every line that opens a block is followed by a deeper one); every declared role has its `NAME = "role"` member, and every default role when none is declared |
| WerewolfGenerator.DefaultsAreDeclaredRoles | LuduScript/LuduScript-main/src/werewolf_generator.cpp:53-62 | the fallback members are exactly the members the six default roles would get if declared |
| WerewolfGenerator.DeclaredMembers | LuduScript/LuduScript-main/src/werewolf_generator.cpp:65-70 | a declared role's member is named by the role upper-cased and holds the role's own text |
| WerewolfGenerator.ActionClass | LuduScript/LuduScript-main/src/werewolf_generator.cpp:185-196 | no block of the class is empty: the class, `description`, `execute` and every block in the translated body are followed by a deeper line; both methods sit one level inside the class, whose name comes from `mapActionToClassName` |
| WerewolfGenerator.GenerateActionClasses | LuduScript/LuduScript-main/src/werewolf_generator.cpp:178-200 | the banner, then the classes; with no action only the banner |
| WerewolfGenerator.ActionClassesAppend | LuduScript/LuduScript-main/src/werewolf_generator.cpp:185-197 | every action gets its own class, in order, and nothing else is written |
| WerewolfGenerator.ClassLineNamed | LuduScript/LuduScript-main/src/werewolf_generator.cpp:187-188 | every class name carries `Action` |
| WerewolfGenerator.BaseInit | LuduScript/LuduScript-main/src/generator.cpp:823-834 | `__init__` opens a block at class level and every line up to the closing blank line is one level inside it; every game variable has its attribute line |
| WerewolfGenerator.GenerateInit | LuduScript/LuduScript-main/src/werewolf_generator.cpp:233-255 | the base lines are kept as they are; every declared role gets its zero count after the role table is created; all added lines are inside `__init__`, and the players are set up last |
| WerewolfGenerator.RolesListJoin | LuduScript/LuduScript-main/src/werewolf_generator.cpp:269-289 | a step's role list is the role texts joined with `, ` in brackets, `[]` included |
| WerewolfGenerator.RolesFromJoin | LuduScript/LuduScript-main/src/werewolf_generator.cpp:273-287 | the loop writes the role texts from its position joined with `, ` |
| WerewolfGenerator.StepsLines | LuduScript/LuduScript-main/src/werewolf_generator.cpp:266-295 | four lines per step, in order |
| WerewolfGenerator.PhaseLines | LuduScript/LuduScript-main/src/werewolf_generator.cpp:263-296 | between the phase's creation and its `self.phases.append` stand exactly the step lines of its steps, added to the lower-cased phase variable; every line but the closing blank is inside `_init_phases` |
| WerewolfGenerator.GenerateInitPhasesAsWritten | LuduScript/LuduScript-main/src/werewolf_generator.cpp:257-299 | the header, then every phase |
| WerewolfGenerator.EmptyPhasesHaveNoBody | LuduScript/LuduScript-main/src/werewolf_generator.cpp:257-299 | with no phases the method is a header with no body |
| WerewolfGenerator.GenerateInitPhases | LuduScript/LuduScript-main/src/werewolf_generator.cpp:257-299 | the method always has a body line, and with phases it is as written |
| WerewolfGenerator.PhasesLinesLength | LuduScript/LuduScript-main/src/werewolf_generator.cpp:261-297 | a phase with `n` steps gives `4n + 3` lines |
| WerewolfGenerator.DefinesCheck | LuduScript/LuduScript-main/src/werewolf_generator.cpp:328-336 | the loop finds a method exactly when one is named `check_game_over` |
| WerewolfGenerator.GenerateCheckGameOver | LuduScript/LuduScript-main/src/werewolf_generator.cpp:323-349 | nothing when the script defines `check_game_over`, otherwise the default method returning `self.game_over` |

## Left out

- The command-line drivers and bindings (`src/main.cpp`, the head and refactor `main.cpp`, the Python binding) are not part of this model: they only read files, call the pieces modelled here and print.
- The Python runtimes and generated artefacts are not part of this model; the generators are modelled up to the text they emit.
- The fixed boilerplate emitters (`emitImports`/`emitHelpers`, `generateImports`, the `generateGameClass` template, `generateEntryPoint`, `generateCoreStructures`/`generateBaseStructures`, `generateSetupGame`, `generateDSLMethods`) write constant text and are left out.
- The middle of the main generator's `normalizeExpression` (LuduScript-main generator.cpp 148-406) is the parameter `rules`, and the middle of its `translateBody` (550-725) is the parameter `build`; only the cleanup, splitting and rendering around them are modelled.
- The Python-side `prefix`/`announce` rewriting inside `translateBody` is part of the `build` parameter and is not modelled.
- Floating point: `std::to_string(double)` and the interpreter's run-time `std::stod` are the `Host` parameter of the head interpreter; the parser does not take `Host`, and a float value is an exact real, so rounding of `double` is not modelled.
- HeadParser.NumberLiteral: a float literal is the exact value of its digits, so the `out_of_range` that `std::stod` throws for a literal beyond the range of `double` (parser_expr.cpp line 133) is not modelled; the integer case, `std::stoll`, is.
- JSON dumping (`getOutput`) and its key order are left out; only `escape_json` and the shape of `export` are modelled.
- Declaration-only headers, the root `include/ast.h` with `src/ast.cpp`, and the head `ast.cpp` constructors hold no logic beyond the datatypes and are not modelled separately.
- Console output (`std::cout`/`std::cerr`) from the parser's `error` and from the runtime is left out; the error is returned as a value.
- `parseType` (src/parser.cpp 640-650) is never called and is left out.
- The `catch` around variable initialisation in the interpreter constructor (include/interpreter.h 147-150) is dead, because `fromString` never throws, and is left out.
- `atoi` overflow (undefined behaviour in C++) and the 32-bit `int` wrap-around of `RuntimeValue::Number` are not modelled: numbers are unbounded integers.
- The 64-bit overflow of integer arithmetic in the head interpreter is not modelled: integers are unbounded.
- The iteration order of `std::map`/`std::unordered_map` is not modelled: `BaseInit` takes the variables as a sequence in the order given, and `actions_count` uses the map's size.
- HeadParser.Parse, RefactorParser.Parse, RefactorParser.ParseGame and WolfParser.Parse are drivers with no contract of their own; their properties are stated by the members they call and by `HeadParserFacts.ParsedProgramsAreWellFormed`.
- WolfRuntime.ExecutePhases has no contract of its own; what it does is stated by `WolfRuntime.PhasesAreTheirSteps`.
- HeadParser.ParseElifs: states where the loop stops; the order of the clauses is stated by `HeadParserFacts.ElifsInOrder`.
- HeadParser.ParseLevel: the precedence shape is stated for token lists without `(` only, because a parenthesised sub-expression may place a looser operator anywhere.
- RefactorParser.ParseLevel: the precedence shape is stated for canonical token lists without `(` only, because a parenthesised sub-expression may place a looser operator anywhere.
- HeadInterp.InitBlock: states whether a value is produced, not which; which value is stated by `HeadInterpFacts.BlockEndsInExpression`, `HeadInterpFacts.DeclarationsOnly` and the two declaration lemmas after them.
- HeadInterp.ExecObj: a nested `obj` clears the current object, and the source then dereferences the empty object when it appends the outer record (`interpreter_stmt.cpp` line 358), which is undefined behaviour; the model stops with the error `LostRecord` instead.
- HeadLexer: the source reads `char` bytes, while the model reads Unicode characters; a non-ASCII character that is several bytes in UTF-8 (such as `é`) is one unknown token in the model but one per byte in the source, and `isalpha` on a negative `char` is undefined behaviour there.
- RefactorLexer: the source reads `char` bytes, while the model reads Unicode characters; a non-ASCII character that is several bytes in UTF-8 is one unknown token in the model but one per byte in the source, and `isalpha` on a negative `char` is undefined behaviour there.
- WolfLexer: the source reads `char` bytes, while the model reads Unicode characters; a non-ASCII character that is several bytes in UTF-8 is one unknown token in the model but one per byte in the source, and `isalpha` on a negative `char` is undefined behaviour there.
- WolfParser.InGameDispatch: rejects `game` with the nested-game error, which the source's `parseInGameBlock` never does (see Findings); the as-written dispatch is `WolfParser.InGameBlockAsWritten`.
- WolfParser.GameLoop: runs the corrected `WolfParser.InGameBlock`, so `game a { game b { } }` records the nested-game error where the source skips the inner `game` silently (see Findings).
- RootGenerator.PlainLine: uses the corrected `RootGenerator.Normalize`, so a line spelling the placeholder `__NE__` keeps it, where the source turns it into `!=` (see Findings).
- HeadInterp.ExecFor: states the scope balance and signal absorption only; the values visited are stated by `HeadInterpFacts.ForLoopVisits` and `HeadInterpFacts.ForStatement`.
- WolfRuntime.EscapeJson: states only that escaping never shortens, plus the round-trip lemma about it.
- RootGenerator.Normalize: states single spacing only; idempotence is `RootGenerator.NormalizeIdempotent`, the `!` stage is `RootGenerator.BangStagesAgree`, and the word-by-word boolean mapping is the contract of `RootGenerator.FixAll`.
- RootGenerator.PrintCalls: states only that the line does not grow.
- MainGenerator.SplitFrom: states only the bound on the number of parts.
- WolfParser.Callable: states the line record and that otherwise only errors change the record.
- WolfParser.ParamsAndBody: states only that the record changes by errors alone.
- WolfParser.Condition: states only that the record changes by errors alone.
- WolfParser.Body: states only that the record changes by errors alone.
- WolfParser.ParseSetup: states only the recorded line of `setup`.
- RootGenerator.LineOut: states the indentation level and the line count only, not the text of each line; it uses the corrected `RootGenerator.Normalize`, so the placeholder text `__NE__` is kept where the source turns it into `!=` (see Findings).
- RootGenerator.TranslateBody: states the indentation level and the line count only, not the text of each line; through `RootGenerator.LineOut` it uses the corrected `RootGenerator.Normalize` (see Findings).
- MainGenerator.RenderPart: states the case of a non-literal part only.
- WerewolfGenerator.GenerateInitPhasesAsWritten: states the header and the phases; it is the as-written half of a finding below.

## Findings

| source | as written | input that shows it | evidently intended | confidence | as-written member | corrected member |
|---|---|---|---|---|---|---|
| src/parser.cpp:657-702 | a line that starts with a block keyword (other than `if`, `for`, `return`) ends the inner loop before any token is taken, so the statement list makes no progress and never ends | a step body `{ num x = 1; }` | a keyword ends a line only once the line already has text | not executed | WolfParser.StatementStepAsWritten, WolfParser.KeywordLineStalls | WolfParser.StatementList, WolfParser.LinesKeepEveryToken |
| src/parser.cpp:332-352 | the phase body loop calls `parseExpressionStatement`, which consumes nothing at `)` or `,`, and has no progress guard | `phase p { ) }` | skip a token when a round consumed nothing, as `parseInGameBlock` does | not executed | WolfParser.PhaseRoundAsWritten, WolfParser.PhaseRoundStalls | WolfParser.PhaseRound, WolfParser.PhaseLoop |
| src/parser.cpp:119-123 | the nested-game check sits in `parseGameDefinition`, but `parseInGameBlock` never dispatches on `game`, so a nested game is skipped silently | `game a { game b { } }` | a nested `game` is rejected with the nested-game error | not executed | WolfParser.InGameBlockAsWritten, WolfParser.NestedGameIsSkipped | WolfParser.InGameBlock, WolfParser.NestedGameIsRejected |
| src/generator.cpp:76-100 | `!=` is hidden behind a placeholder text before `!` is rewritten, so source text that already spells the placeholder is turned into `!=` | the text `__NE__` | the placeholder stage leaves text without `!` unchanged | not executed | RootGenerator.NormalizeAsWritten, RootGenerator.PlaceholderClash | RootGenerator.Bangs, RootGenerator.BangStagesAgree |
| LuduScript/LuduScript-main/src/werewolf_generator.cpp:257-299 | with no phases, `_init_phases` is written with no statement in its body | a game with no phases | write `pass`, as the base generator does | not executed | WerewolfGenerator.GenerateInitPhasesAsWritten, WerewolfGenerator.EmptyPhasesHaveNoBody | WerewolfGenerator.GenerateInitPhases |
