# rlox core in Dafny

rlox is a tree-walking interpreter for Lox, written in Rust. This project
models its front end and its runtime core as pure Dafny functions and proves
properties of them. The modelled pieces are:

- the scanner, which turns source text into tokens;
- the recursive-descent parser with panic-mode recovery;
- the AST pretty-printer;
- the static resolver, which computes the scope depth of each variable
  reference;
- the runtime environment, a chain of frames plus a global frame;
- classes and instances;
- the expression evaluator.

One Dafny module per source file:

| module | file | source |
|---|---|---|
| `Common` | common.dfy | `Option`, `Result` and the error kinds |
| `Tokens` | token.dfy | token types, tokens and literals |
| `Ast` | ast.dfy | expressions and statements, with size measures |
| `Values` | value.dfy | run-time values |
| `Env` | env.dfy | src/env.rs |
| `Classes` | class.dfy | src/class.rs |
| `Interpreter` | interpreter.dfy | src/interpreter.rs |
| `Scanner` | scanner.dfy | src/scanner.rs |
| `Parser` | parser.dfy | src/parser.rs |
| `Printer` | printer.dfy | src/ast/pretty_printer.rs |
| `Resolver` | resolver.dfy | src/resolver.rs |
| `Pipeline` | pipeline.dfy | how the stages fit together |

Some conventions hold across the model:

- Mutable structures become values:
  - the scanner and parser cursors are positions, and each parsing function
    returns the position where it stopped;
  - a frame is a `map`;
  - an environment is a sequence of frames, innermost first;
  - the resolver's state is a record that every step returns.
- Scope depth is therefore a sequence index, in both the resolver and the
  environment.
- Everything the interpreter's `resolve` would store is recorded, in order,
  as a list of `Resolution(name, depth)` entries.

Two properties tie the model together.

- **Front end.** Scanning any text yields tokens the parser accepts. Parsing
  them always yields a program the printer can render. For every expression
  whose leaves contain no parentheses, the rendering is balanced.
- **Resolver and environment.** A completed resolver pass records one
  resolution per variable read, assignment target and `this`, in the order
  the visitors reach them. An expression pass completes exactly when every
  such reference is in some scope, no read is of a name still being
  declared, and `this` is inside a class. Each recorded depth is the
  nearest run-time frame holding the name, whenever the frames mirror the
  resolver's scopes. Reading or assigning at that depth is then the same as
  the dynamic lookup.

## Model

| member | source | states |
|---|---|---|
| Env.New | src/env.rs:56-68 | a fresh environment has call depth 0, one frame that is the global frame, and binds no name |
| Env.From | src/env.rs:70-80 | a call environment fails with "Stack overflow." exactly when the call depth exceeds 255; otherwise it keeps the closure chain and the global frame |
| Env.EnterScope | src/env.rs:83-92 | pushes an empty innermost frame in front of the existing chain |
| Env.ExitScope | src/env.rs:95-105 | drops exactly the innermost frame |
| Env.Define | src/env.rs:148-150 | binds the name in the innermost frame only; other names and frames keep their values |
| Env.DefineGlobally | src/env.rs:144-146 | binds the name in the global frame; the chain is unchanged |
| Env.GetHelper | src/env.rs:152-161 | finds a value exactly when some frame binds the name, and it is the value in the nearest such frame |
| Env.Get | src/env.rs:163-171 | rejects a token that is not an identifier, `this` or `super`; an unbound name is "Undefined variable"; otherwise returns the nearest binding |
| Env.AssignHelper | src/env.rs:107-129 | succeeds exactly when some frame binds the name, and rewrites only the nearest such frame |
| Env.Assign | src/env.rs:107-129 | rejects tokens that are not identifiers; an unbound name is "Undefined variable"; otherwise overwrites the nearest binding |
| Env.Ancestor | src/env.rs:186-200 | the frame `depth` steps out from the innermost one |
| Env.GetByDepth | src/env.rs:173-184 | reads the name in exactly the frame at the given depth; missing there is "Undefined variable"; a token that is not an identifier, `this` or `super` fails at any depth |
| Env.AssignByDepth | src/env.rs:131-142 | writes the name in exactly the frame at the given depth; missing there is "Undefined variable"; a token that is not an identifier fails at any depth |
| Env.BoundInTail | src/env.rs:152-161 | a name missing from the innermost frame is bound in the chain exactly when it is bound in the outer frames |
| Env.GetHelperFindsNearest | src/env.rs:152-161 | the chain walk returns the binding of the nearest frame that holds the name |
| Env.AssignHelperWritesNearest | src/env.rs:107-129 | the chain walk writes into the nearest frame that holds the name |
| Env.GetByDepthAgreesWithGet | src/env.rs:173-184 | a read at the depth of the nearest frame equals the dynamic read |
| Env.AssignByDepthAgreesWithAssign | src/env.rs:131-142 | an assignment at the depth of the nearest frame equals the dynamic assignment |
| Env.GetByDepthIgnoresOtherFrames | src/env.rs:173-184 | a read at a depth whose frame lacks the name fails, even when another frame binds it |
| Env.ExitUndoesEnter | src/env.rs:83-105 | leaving a scope just entered restores the environment exactly |
| Env.EnterScopeKeepsLookups | src/env.rs:83-92 | entering a scope changes no dynamic lookup |
| Env.GetAfterDefine | src/env.rs:148-171 | a name just defined reads back as the value defined |
| Env.GetAfterAssign | src/env.rs:107-171 | a name just assigned reads back as the value assigned, and the frame count is unchanged |
| Classes.Ancestry | src/class.rs:11-15 | the superclass chain starts at the class itself |
| Classes.NewClass | src/class.rs:24-30 | a new class has its name, no superclass, and finds no method |
| Classes.FindMethod | src/class.rs:32-42 | the class's own method wins; otherwise the superclass is searched; with neither, nothing is found |
| Classes.FoundIsNearest | src/class.rs:32-42 | a found method is the definition of the nearest class on the ancestry that defines the name |
| Classes.DefinedIsFound | src/class.rs:32-42 | a method defined anywhere on the ancestry is found |
| Classes.FindMethodIsNearestDefinition | src/class.rs:32-42 | lookup succeeds exactly when some ancestor defines the name, and it returns the nearest definition |
| Classes.OwnMethodOverrides | src/class.rs:32-42 | a subclass's own method overrides any superclass method of that name |
| Classes.NewInstance | src/class.rs:52-57 | a new instance belongs to its class and has no fields |
| Classes.SetField | src/class.rs:59-61 | stores one field and changes no other field |
| Classes.GetProperty | src/class.rs:63-74 | a field shadows a method; otherwise a found method is bound to the instance; "Undefined property" exactly when neither exists |
| Classes.GetAfterSet | src/class.rs:59-74 | a field just set reads back, whatever methods the class has |
| Classes.SetKeepsOtherProperties | src/class.rs:59-74 | setting one field leaves every other property read unchanged |
| Classes.ClassToString | src/class.rs:45-49 | the text is "class " followed by the class name |
| Classes.InstanceToString | src/class.rs:77-81 | the text is the class name followed by " instance" |
| Interpreter.IsTruthy | src/interpreter.rs:19-25 | only `false` and `nil` are falsy |
| Interpreter.EvalLiteral | src/interpreter.rs:29-36 | each literal kind becomes the value of the same kind and content |
| Interpreter.EvalUnary | src/interpreter.rs:42-58 | `!` negates truthiness; `-` negates numbers and rejects anything else; other operators are "Unknown unary operator" |
| Interpreter.EvalBinary | src/interpreter.rs:60-131 | `+` adds numbers or concatenates strings; arithmetic and comparisons need two numbers; `/` rejects a zero divisor; `==` and `!=` never fail |
| Interpreter.Evaluate | src/interpreter.rs:28-40 | evaluation never yields a callable |
| Interpreter.EvaluationOrder | src/interpreter.rs:60-63 | the left operand's error wins, then the right one's; only then is the operator applied |
| Interpreter.NotEqualNegatesEqual | src/interpreter.rs:125-128 | `!=` is the negation of `==` for every pair of values |
| Interpreter.ComparisonsComplement | src/interpreter.rs:97-124 | on numbers `<` is the complement of `>=`, and `>` of `<=` |
| Interpreter.DoubleBangIsTruthiness | src/interpreter.rs:52-54 | `!!v` is the truthiness of `v` |
| Interpreter.NegateTwice | src/interpreter.rs:45-51 | unary minus is its own inverse on numbers and fails on anything else |
| Interpreter.GroupingTransparent | src/interpreter.rs:38-40 | parentheses, however deeply nested, do not change the result |
| Interpreter.ArithmeticExample | src/interpreter.rs:79-96 | `((1234 * 0) + (10 / 2))` evaluates to 5 |
| Interpreter.DivisionByZeroExample | src/interpreter.rs:86-96 | `123 / 0` is the "Division by zero" error |
| Interpreter.TypeErrorExamples | src/interpreter.rs:64-103 | adding a string to a number, negating a string, and comparing strings are errors |
| Interpreter.ValueExamples | src/interpreter.rs:42-128 | `!"hello world"` is false, `nil == 1` is false, and `--3.6` is 3.6 |
| Scanner.MatchCh | src/scanner.rs:116-127 | consumes one character exactly when it is the expected one |
| Scanner.NewlinesSplit | src/scanner.rs:88 | newline counts add up over adjacent ranges |
| Scanner.SkipComment | src/scanner.rs:75-78 | a comment runs up to the next newline or the end, and contains no newline |
| Scanner.SkipDigits | src/scanner.rs:168-175 | consumes a maximal run of digits |
| Scanner.SkipString | src/scanner.rs:148-153 | stops at the first quote or the end, and counts the newlines it passes |
| Scanner.Pow10 | src/scanner.rs:177 | powers of ten are positive, so fractions are well defined |
| Scanner.DotIndex | src/scanner.rs:171-176 | finds the first '.' of a lexeme, or reports none |
| Scanner.ScanSingle | src/scanner.rs:44-53 | a one-character token whose lexeme is that character, on the current line |
| Scanner.OneOrTwo | src/scanner.rs:56-71 | the two-character token exactly when '=' follows |
| Scanner.ScanOperator | src/scanner.rs:56-71 | `!`, `=`, `<`, `>` give one- or two-character tokens classified by their lexeme |
| Scanner.OperatorLexemeType | src/scanner.rs:56-71 | the lexeme of an operator token determines its type |
| Scanner.ScanSlash | src/scanner.rs:74-82 | `//` skips to the end of the line and emits nothing; a lone `/` is a Slash |
| Scanner.ScanString | src/scanner.rs:147-165 | the literal is the text between the quotes; with no closing quote nothing is emitted and scanning ends |
| Scanner.ScanNumber | src/scanner.rs:167-181 | a maximal digit run, with a fraction only when a digit follows the dot; the literal is the lexeme's decimal value |
| Scanner.IntegerShape | src/scanner.rs:168-170 | a digit run is a number lexeme with no dot |
| Scanner.FractionShape | src/scanner.rs:171-176 | digits, a dot and more digits form a number lexeme whose dot is the first |
| Scanner.DotIndexNone | src/scanner.rs:171 | a lexeme without '.' has no fraction part |
| Scanner.DotIndexIsFirstDot | src/scanner.rs:171 | the fraction starts after the first '.' |
| Scanner.ScanToken | src/scanner.rs:40-99 | consumes at least one character, counts lines, and emits at most one well-formed token; whitespace and unknown characters emit none |
| Scanner.ScanFrom | src/scanner.rs:24-27 | the loop ends with EOF on the final line; every other token is well formed |
| Scanner.ScanTokens | src/scanner.rs:22-32 | the output ends with EOF on line 1 plus the number of newlines; every other token is well formed |
| Scanner.KeywordsAreNotScanned | src/scanner.rs:91-97 | letters are unexpected characters, so `nil` scans to EOF alone |
| Scanner.OperatorExample | src/scanner.rs:56-59 | `1 != 3` scans to a number, `!=` and a number |
| Scanner.OperatorExampleBang | src/scanner.rs:56-59 | `!` followed by `=` is one BangEqual token |
| Scanner.SingleDigitAt | src/scanner.rs:167-181 | a digit with no digit or dot after it is a one-character number |
| Scanner.MultilineStringExample | src/scanner.rs:148-153 | a string spanning a newline advances the line count for the tokens after it |
| Parser.Advance | src/parser.rs:78-84 | moves one token on, except at EOF |
| Parser.MatchToken | src/parser.rs:40-49 | consumes one token exactly when its type is listed and it is not EOF |
| Parser.Consume | src/parser.rs:62-68 | returns the expected token and moves past it; otherwise records the given syntax error without moving |
| Parser.OpLevel | src/parser.rs:127-173 | each binary operator belongs to exactly one precedence level |
| Parser.Expression | src/parser.rs:123-125 | a parsed expression consumed tokens and respects the precedence grammar |
| Parser.Operand | src/parser.rs:127-173 | each level's operand is parsed at the next tighter level |
| Parser.Binary | src/parser.rs:127-173 | a level parses an expression binding at least that tightly |
| Parser.BinaryRest | src/parser.rs:130-134 | the operator loop keeps the tree so far when no operator follows, and keeps any recorded error |
| Parser.Unary | src/parser.rs:175-183 | `!` and `-` prefix a nested unary expression; otherwise a primary is parsed |
| Parser.Primary | src/parser.rs:185-242 | literals, variables and groupings; anything else is "Expected expression"; a bad escape keeps the raw text and records an error |
| Parser.ParseExpr | src/parser.rs:26-31 | no expression only after a recorded error; a parsed one respects the precedence grammar |
| Parser.SyncLoop | src/parser.rs:101-115 | stops at the first sync point: EOF, after a `;`, or before a statement keyword |
| Parser.Synchronize | src/parser.rs:98-116 | skips the offending token, then stops at the first sync point |
| Parser.VarDeclaration | src/parser.rs:276-284 | a declaration of the named identifier; a missing name is "Expect variable name" |
| Parser.PrintStatement | src/parser.rs:294-298 | a print statement, ended by `;` |
| Parser.ExpressionStatement | src/parser.rs:300-304 | an expression statement, ended by `;` |
| Parser.Statement | src/parser.rs:286-292 | `print` starts a print statement; anything else starts an expression statement |
| Parser.Declaration | src/parser.rs:262-274 | a statement is produced, or an error is recorded and parsing resumes at a sync point |
| Parser.Statements | src/parser.rs:248-256 | every collected statement is one this parser produces; at EOF the list is empty |
| Parser.Prepend | src/parser.rs:250-254 | a parsed declaration goes in front of the later ones; a failed one is dropped |
| Parser.DeclarationKept | src/parser.rs:248-274 | a declaration that parses is kept, in source order |
| Parser.DeclarationDropped | src/parser.rs:262-274 | a failed declaration is dropped and the rest is parsed from the sync point |
| Parser.ExpressionStatementParsed | src/parser.rs:300-304 | an expression followed by `;` is one expression statement |
| Parser.ExpressionStatementUnterminated | src/parser.rs:300-304 | an expression with no `;` is dropped with an error, and parsing resumes at a sync point |
| Parser.PrimaryLeaves | src/parser.rs:186-233 | `false`, `true`, `nil`, identifiers, numbers and strings each become their node and consume one token; a string the unescaper rejects keeps its raw text and records an error |
| Parser.PrimaryGrouping | src/parser.rs:234-239 | `(` wraps the inner expression in a grouping and skips the next token whatever it is; an inner error is the result |
| Parser.PrimaryRejects | src/parser.rs:240 | any other token is "Expected expression", with nothing consumed |
| Parser.UnaryCases | src/parser.rs:175-183 | without `!` or `-` the result is the primary; with one, it applies to the unary expression after it, and an operand error is the result |
| Parser.VarInitializedBy | src/parser.rs:276-284 | once the initializer after `name =` has parsed, `;` gives the declaration with that initializer and anything else is "Expect ';' after variable declaration" |
| Parser.VarWithInitializer | src/parser.rs:276-284 | after `name =`, an initializer error is the result; with `;` the declaration holds the initializer; otherwise "Expect ';' after variable declaration" |
| Parser.VarWithoutInitializer | src/parser.rs:276-284 | with no `=`, `;` gives a declaration without initializer; anything else is "Expect ';' after variable declaration" |
| Parser.PrintStatementCases | src/parser.rs:294-298 | an expression error is the result; with `;` it is a print statement; otherwise "Expect ';' after value" |
| Parser.DeclarationOfVar | src/parser.rs:262-274 | after `var`, a successful variable declaration is kept; a failed one yields no statement, an error, and the next sync point |
| Parser.DeclarationOfPrint | src/parser.rs:262-274 | after `print`, a successful print statement is kept; a failed one yields no statement, an error, and the next sync point |
| Parser.VarDeclarationParsed | src/parser.rs:262-284 | `var x = e;` is one declaration of `x` initialised to `e` |
| Parser.VarDeclarationUnterminated | src/parser.rs:262-284 | `var x = e` with no `;` is dropped with an error, and parsing resumes at a sync point |
| Parser.PrintStatementParsed | src/parser.rs:262-298 | `print e;` is one print statement |
| Parser.PrintStatementUnterminated | src/parser.rs:262-298 | `print e` with no `;` is dropped with an error, and parsing resumes at a sync point |
| Parser.Parse | src/parser.rs:33-35 | the result is always one block of statements this parser produces |
| Parser.OperatorMatches | src/parser.rs:130 | a level's loop consumes the next token exactly when it is an operator of that level |
| Parser.BinaryRestStops | src/parser.rs:130-136 | with no operator of the level next, the loop returns the tree so far |
| Parser.BinaryRestSteps | src/parser.rs:130-134 | an operator of the level makes the tree so far the left child of a new binary node |
| Parser.BinaryRestFails | src/parser.rs:130-134 | an operand error ends the loop with that error |
| Parser.BinaryLoosensOnce | src/parser.rs:127-173 | with no operator of a looser level next, parsing one level looser gives the same result |
| Parser.BinaryLoosens | src/parser.rs:127-173 | with no operator of any looser level next, parsing at a looser level gives the same result |
| Parser.NumberUnary | src/parser.rs:203-210 | a number token is a complete unary expression |
| Parser.NumberAt | src/parser.rs:127-173 | a number with no tighter operator after it parses to itself at any level |
| Parser.LeftAssociativeExample | src/parser.rs:151-161 | `1 - 2 - 3` groups to the left |
| Parser.DifferenceChain | src/parser.rs:151-161 | `1 - 2 - 3` followed by any non-operator groups to the left and stops before that token |
| Parser.SumOfProduct | src/parser.rs:151-173 | `1 + 2 * 3` is the sum of 1 and the product |
| Parser.ProductPart | src/parser.rs:163-173 | the `2 * 3` of `1 + 2 * 3` is parsed at the factor level |
| Parser.PrecedenceExample | src/parser.rs:248-304 | `1 + 2 * 3 ;` parses to one expression statement where `*` binds tighter |
| Parser.MissingSemicolonExample | src/parser.rs:300-304 | without `;` the same tokens give an empty block and a recorded error |
| Parser.GroupingSkipsAnyTokenExample | src/parser.rs:234-239 | `( 1 2 ;` parses without error, because the token after the inner expression is skipped whatever it is |
| Parser.GroupedNumber | src/parser.rs:234-239 | the grouping of `( 1 2` ends after the `2` |
| Parser.NestedUnaryExample | src/parser.rs:175-183 | `- - 1` nests to the right |
| Printer.SpacedSnoc | src/ast/pretty_printer.rs:10-13 | each further part adds one space and the part |
| Printer.TerminatedSnoc | src/ast/pretty_printer.rs:22-25 | each further statement adds its text and a `;` |
| Printer.TerminatedIsJoin | src/ast/pretty_printer.rs:22-29 | text with a `;` after each part, minus the last `;`, is the parts joined by `;` |
| Printer.Parenthesize | src/ast/pretty_printer.rs:6-16 | the text is `(`, the name, each part after a space, then `)` |
| Printer.Block | src/ast/pretty_printer.rs:18-32 | the text is `[`, the parts joined by `;`, then `]`; an empty block is `[]` |
| Printer.Render | src/ast/pretty_printer.rs:37-60 | binary, unary and grouping nodes render as parenthesized prefix forms |
| Printer.RenderStmt | src/ast/pretty_printer.rs:65-87 | a block renders in brackets; print and var statements render in parentheses |
| Printer.WalkConcat | src/ast/pretty_printer.rs:6-16 | the nesting depth is tracked across concatenated texts |
| Printer.WalkShift | src/ast/pretty_printer.rs:6-16 | a balanced text stays balanced at any starting depth |
| Printer.WalkPlain | src/ast/pretty_printer.rs:45-60 | text with no parentheses keeps the depth |
| Printer.WalkBalanced | src/ast/pretty_printer.rs:6-16 | a balanced text returns to its starting depth |
| Printer.SpacedBalanced | src/ast/pretty_printer.rs:10-13 | balanced parts stay balanced when separated by spaces |
| Printer.JoinBalanced | src/ast/pretty_printer.rs:22-29 | balanced parts stay balanced when joined by `;` |
| Printer.ParensBalanced | src/ast/pretty_printer.rs:6-16 | parenthesizing balanced parts under a plain name is balanced |
| Printer.BlockBalanced | src/ast/pretty_printer.rs:18-32 | a block of balanced parts is balanced |
| Printer.RenderBalanced | src/ast/pretty_printer.rs:37-60 | every rendering is balanced when the lexemes and literal texts hold no parentheses |
| Printer.VarBalanced | src/ast/pretty_printer.rs:77-87 | a var statement's text is balanced when its parts are |
| Printer.RenderStmtBalanced | src/ast/pretty_printer.rs:65-87 | every statement rendering is balanced under the same condition |
| Printer.PrecedenceRendering | src/ast/pretty_printer.rs:37-39 | `1 + 2 * 3` renders as `(+ 1 (* 2 3))` |
| Printer.UnaryRendering | src/ast/pretty_printer.rs:54-56 | `-1 + 2` renders as `(+ (- 1) 2)` |
| Printer.StringsPrintRaw | src/ast/pretty_printer.rs:48 | strings render without quotes |
| Printer.StringLooksLikeNil | src/ast/pretty_printer.rs:45-52 | the string "nil" and the nil literal render alike |
| Printer.VarRendering | src/ast/pretty_printer.rs:77-87 | `(var name)`, or `(var name = init)` with an initializer |
| Printer.PrintRendering | src/ast/pretty_printer.rs:73-75 | a print statement renders as `(print e)` |
| Printer.BlockRendering | src/ast/pretty_printer.rs:18-32 | an empty block renders as `[]`; two statements render as `[s;t]` |
| Resolver.NewResolver | src/resolver.rs:31-40 | no scopes, outside any function and class, nothing resolved |
| Resolver.BeginScope | src/resolver.rs:78-80 | opens an empty innermost scope |
| Resolver.EndScope | src/resolver.rs:82-84 | closes the innermost scope; with none open it changes nothing |
| Resolver.EndScopeUndoesBeginScope | src/resolver.rs:78-84 | closing a scope just opened restores the state |
| Resolver.Declare | src/resolver.rs:86-103 | fails exactly when the innermost scope already holds the name; otherwise adds it as not yet defined; with no scope it changes nothing |
| Resolver.Define | src/resolver.rs:105-111 | marks a declared name as defined and adds no name |
| Resolver.FindScope | src/resolver.rs:113-126 | finds the nearest scope holding the name, and nothing exactly when no scope holds it |
| Resolver.ResolveLocal | src/resolver.rs:113-126 | records the name's nearest scope depth; a name in no scope is "Undefined variable" |
| Resolver.RecordsTrans | src/resolver.rs:60-76 | resolving one part after another records the references of both, in order |
| Resolver.AllOkAppend | src/resolver.rs:239-249 | the references of two parts are all acceptable exactly when those of each part are |
| Resolver.ResolveExpr | src/resolver.rs:239-316 | expressions leave the scopes unchanged; a completed pass records one resolution per variable, assignment target and `this`, in visiting order, each at the nearest scope holding the name; the pass completes exactly when every such reference is in some scope, no read is of a name still being declared, and `this` is inside a class |
| Resolver.ResolveRead | src/resolver.rs:265-280 | a read of a name declared but not yet defined in the innermost scope is "Can't read local variable in its own initializer."; otherwise the read is resolved, and it completes exactly when the read is acceptable |
| Resolver.ResolveAssign | src/resolver.rs:282-286 | the value's references are recorded before the target's, and the pass completes exactly when all are acceptable |
| Resolver.ResolveCall | src/resolver.rs:288-294 | the callee's references come before the arguments', and the pass completes exactly when all are acceptable |
| Resolver.ResolveThis | src/resolver.rs:307-313 | `this` outside a class is "Can't use 'this' outside of a class."; inside one it is resolved like a variable |
| Resolver.ResolvePair | src/resolver.rs:239-249 | two sub-expressions are resolved left then right: the left's references are recorded first, and the pass completes exactly when all are acceptable |
| Resolver.ResolveExprs | src/resolver.rs:71-76 | a list of expressions is resolved in order: each one's references are recorded in turn, and the pass completes exactly when all are acceptable |
| Resolver.AnyResetsCons | src/resolver.rs:145-151 | a list resets the function context exactly when its head or its tail does |
| Resolver.ResolveStmt | src/resolver.rs:145-235 | a statement keeps the outer scopes and the class context; blocks and programs restore the scopes exactly; resolutions are only appended, and a completed pass records every reference of the statement in order |
| Resolver.ResolveProgramStmt | src/resolver.rs:145-151 | the declarations are resolved in a new scope with the function context reset, and every reference is recorded |
| Resolver.ResolveBlock | src/resolver.rs:153-158 | the declarations are resolved in a new scope that is closed afterwards, and every reference is recorded |
| Resolver.ResolveExprStmt | src/resolver.rs:160-168 | the expression's references are recorded, and the statement completes exactly when they are all acceptable |
| Resolver.ResolveIf | src/resolver.rs:179-186 | the condition's references come first, then the then branch's, then the else branch's |
| Resolver.ResolveWhile | src/resolver.rs:188-192 | the condition's references come before the body's |
| Resolver.ResolveFunctionDecl | src/resolver.rs:194-199 | a redeclared name is "already declared"; otherwise the name is defined in the innermost scope and the body's references are recorded |
| Resolver.ResolveReturn | src/resolver.rs:201-212 | `return` outside a function is "Can't return from non-function."; otherwise the returned value's references are recorded |
| Resolver.ResolveStmts | src/resolver.rs:60-65 | a statement list keeps the same guarantees, records every statement's references in order, and stops at the first error |
| Resolver.ResolveVar | src/resolver.rs:170-177 | a redeclaration in the same scope is "already declared"; otherwise the initializer's references are recorded and the name is added to the innermost scope and defined |
| Resolver.ResolveFunction | src/resolver.rs:128-141 | parameters and body live in a fresh scope; the body's references are recorded; the scopes and the function context are restored afterwards |
| Resolver.ResolveParams | src/resolver.rs:133-136 | parameters are declared and defined in order and record no resolution |
| Resolver.ResolveClass | src/resolver.rs:214-235 | a class name already in the innermost scope is "Variable with this name already declared in this scope"; otherwise the name is declared and defined there, the outer scopes are kept, and the methods' references are recorded |
| Resolver.ClassScope | src/resolver.rs:218-221 | methods get a new innermost scope where `this` is defined, inside a class; the outer scopes are unchanged |
| Resolver.ClassMethodsSeeThis | src/resolver.rs:214-235 | a class's methods are resolved from that scope, with the class name already defined one scope out, and the class resolves exactly when its methods do |
| Resolver.ResolveMethods | src/resolver.rs:223-229 | every method is resolved as a function, restoring the scopes and contexts, and the methods' references are recorded in order |
| Resolver.ResolveProgram | src/resolver.rs:49-54 | `had_error` is set exactly when resolution aborts; the recorded resolutions are returned, and without an error they are one per reference of the program, in order |
| Resolver.OwnInitializerRejected | src/resolver.rs:265-280 | `var a = a;` inside a scope is "Can't read local variable in its own initializer." |
| Resolver.UnboundNameRejected | src/resolver.rs:122-125 | a name in no scope is an error, with no fallback to globals |
| Resolver.ReturnOutsideFunctionRejected | src/resolver.rs:201-207 | `return` outside a function is rejected |
| Resolver.ReturnInsideFunction | src/resolver.rs:201-212 | a bare `return` inside a function changes nothing |
| Resolver.ThisOutsideClassRejected | src/resolver.rs:307-313 | `this` outside a class is rejected |
| Resolver.RedeclarationRejected | src/resolver.rs:86-103 | declaring a name twice in one scope is "already declared" |
| Resolver.ShadowingAllowed | src/resolver.rs:153-158 | an inner block may redeclare an outer name |
| Resolver.ParamsAcceptedIffDistinct | src/resolver.rs:133-136 | the parameter loop completes exactly when the names are distinct and new to the scope |
| Resolver.DuplicateParameterRejected | src/resolver.rs:128-141 | a function with a repeated parameter name is rejected |
| Resolver.SingleStmt | src/resolver.rs:60-65 | a one-statement list resolves as that statement |
| Resolver.StmtsAppend | src/resolver.rs:60-65 | a list resolves in two parts, and the second only when the first completes |
| Resolver.NestedBlockDepth | src/resolver.rs:113-126 | in `{ var a; { a; } }` the read of `a` is resolved at depth 1 |
| Resolver.ThisInsideMethod | src/resolver.rs:214-235 | `this` in a method resolves at depth 1, the class's scope |
| Resolver.ReturnThisInMethod | src/resolver.rs:201-212 | `return this;` in a method body records `this` at depth 1 |
| Pipeline.ScannedTokensAreReady | src/scanner.rs:22-32 | scanner output ends in EOF and carries every literal the parser reads |
| Pipeline.PrecedencedIsPrintable | src/ast/pretty_printer.rs:37-60 | every expression the parser builds can be rendered |
| Pipeline.ParsedStmtIsPrintable | src/ast/pretty_printer.rs:65-87 | every statement the parser builds can be rendered |
| Pipeline.ParsedProgramIsPrintable | src/parser.rs:33-35 | every parsed program can be rendered |
| Pipeline.SourceIsPrintable | src/scanner.rs:22-32 | scanning then parsing any text gives a program that can be rendered |
| Pipeline.ResolvedDepthIsNearestFrame | src/resolver.rs:113-126 | when frames mirror scopes, a resolved depth is the nearest frame holding the name, and depth-based access equals dynamic access |
| Pipeline.ExprResolutionsAreNearestFrames | src/resolver.rs:239-316 | every depth an expression pass records gives the dynamic read at run time |
| Pipeline.ExprReferencesResolveToFrames | src/resolver.rs:239-316 | when every reference is acceptable, the pass completes and each reference gets its own resolution, in order, whose depth gives the dynamic read |

## Left out

- Reading files, the REPL, the command-line runner and printing to stdout
  or stderr. Errors carry their kind and message only. The line number and
  lexeme that the source attaches for diagnostics are dropped.
- Native functions and the call protocol: function calls, `return`
  unwinding, `bind`, and the interpreter's statement visitor. In this revision of
  rlox the interpreter has cases only for literal, grouping, unary and binary
  expressions, and those are what `Interpreter.Evaluate` covers.
- `Classes.GetProperty` takes `bind` as a parameter, because
  src/value.rs is not part of this model.
- Resolver.ResolveStmt: states which references a completed statement pass
  records, and in what order, but not exactly when a statement pass
  completes. That depends on the declarations made along the way. It is
  stated for expressions (`Resolver.ResolveExpr`), for parameter lists
  (`Resolver.ParamsAcceptedIffDistinct`) and for the listed rejections.
- Interpreter.Evaluate: its own contract says only that no callable is
  produced. What it computes is stated by `Interpreter.EvaluationOrder`,
  `Interpreter.GroupingTransparent` and the `EvalUnary` and `EvalBinary`
  contracts.
- Floating point:
  - numbers are exact reals, so `f64` rounding, NaN and infinities are not
    modelled;
  - the scanner's `parse::<f64>` is the exact decimal value of the lexeme,
    so its "Invalid number" branch cannot occur;
  - the printer's `f64::to_string` is a parameter `num`.
- The `unescape` crate is a parameter `u` of the parser. Its result is
  trusted as given.
- Shared ownership:
  - frames, classes and instances are values;
  - after `Environment::new` the source's innermost frame and its `global`
    frame are the same object, and the model keeps them as separate values;
  - reference identity of variable references is replaced by the ordered
    list of resolutions.
- The environment's debugging dump of its frames.
- `unreachable!` in the resolver's class case cannot arise: class members
  are methods by construction in this model's syntax tree.
- Source text is `seq<char>` with one character per byte.

Where this revision of rlox differs from the Lox language as described in
Crafting Interpreters, the model follows the code:

- **Scanner.** The scanner emits no identifier or keyword tokens.
  Letters are unexpected characters and produce no token
  (`Scanner.KeywordsAreNotScanned`).
- **Statements.** Every statement needs its `;`. Only `var`, `print` and
  expression statements are parsed.
- **Groupings.** A grouping skips the token after its inner expression
  whatever it is (src/parser.rs:237). It does not demand `)`
  (`Parser.PrimaryGrouping`, `Parser.GroupingSkipsAnyTokenExample`).
- **Unresolved names.** The resolver rejects a name no scope holds with
  "Undefined variable". In the book's Lox such names are left to be looked
  up as globals at run time (`Resolver.UnboundNameRejected`).
- **Function context.** The program statement resets the current function
  kind to "none" and never restores it. `Resolver.ResolveStmt` states this
  through `ResetsFunction`.
- **Scope order.** The resolver's scope vector is innermost-last in the
  source. The model stores it innermost-first, so a depth is an index. This
  changes no depth.
