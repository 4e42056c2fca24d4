# ChocoPy front end: AST builder and call-stack tracker

This project models two parts of a compiler from a Python subset
(ChocoPy) to WebAssembly.

**The AST builder** (`parser.ts`). It walks the concrete syntax tree the
parser produces and builds the abstract syntax tree:

- literals, expressions and calls;
- assignment targets and destructuring;
- statements and type annotations;
- parameters, variable inits and scope declarations;
- function and class definitions, and whole programs.

Every node it builds carries a source location (line, column, length and
file id).

**The call-stack tracker** (`stack.ts`). At run time it records the
location of every call, raises a recursion error past 200 frames, raises
a division error on a zero divisor, and renders the innermost frames as
a trace.

## How the model is built

**The syntax tree.** A node is a value `Cst.Node(kind, from, to,
children)`; the source text and file id travel beside it as
`Cst.Source`. A cursor is an index into a node's children.
`Cst.Next(kids, i)` moves to the next sibling, and stays put on the last
one, as the tree cursor does.

**Builders.** Every builder is a function returning `Ast.Result`.
- A `CompileError` throw becomes a failure, with its kind and its
  location.
- A loop that could never end on a stuck cursor becomes the failure
  `Diverges`.
- Entering a childless node becomes `Malformed`.

**Loop methods.** Each loop of the original is a method with a `while`
loop. It is proved equal to the builder function (`ensures r == …Of(…)`).
The lemmas then state what the builder promises:
- the tables and error cases;
- the order of items, targets, entries and statements;
- that defaults come last;
- the constructor synthesis;
- how a function body and a program are partitioned.

**The tracker.** It is a class `Stack.StackManager` with `seq` fields.
Its methods are proved against the functions `Popped`, `Trace` and
`OverflowError`. A thrown error is returned as `Some(error)`.

**Locations.** `SourcePos.GetSourcePos` is the location every builder
uses. It counts columns from 1 on every line. The original's formula,
`SourcePos.GetSourcePosAsWritten`, is kept beside it (see Findings).

## Model

| member | source | states |
|---|---|---|
| SourcePos.GetSourcePos | parser.ts:25-39 | the line and column are at least 1; the length is `to - from`; the file id is passed through |
| SourcePos.PrefixPosition | parser.ts:25-39 | the line is the number of newline-separated pieces of the text before the node; the column is measured from the start of the last piece |
| SourcePos.AsWrittenPosition | parser.ts:25-39 | the original's formula: line = 1 + newlines before `from`; column = `from` minus the text up to the last newline, or `from` itself on line 1 |
| SourcePos.CorrectedAgreesAfterFirstLine | parser.ts:25-39 | the corrected location equals the original's except on line 1, where its column is one larger |
| SourcePos.FirstLineColumnIsZeroBased | parser.ts:25-39 | on the first line the original's column is `from` (0-based); the corrected one is `from + 1` |
| SourcePos.PosInPrefix | parser.ts:25-39 | within the text, the line counts the pieces of `s[..from]` and the column is one more than the length of its last piece |
| SourcePos.LineStartSplit | parser.ts:26-33 | the one-pass line scan agrees with splitting the prefix on newlines, for both the line number and the line start |
| SourcePos.PosLocatesText | parser.ts:25-39 | for a node on one line, line `line` of the file, cut from column `col` for `length` characters, is exactly the node's text |
| SourcePos.Pos | parser.ts:25-39 | a node's location has line and column at least 1, the node's length and the file id |
| Js.Split | parser.ts:27-29 | `split` yields at least one piece |
| Js.SplitCount | parser.ts:27 | `s.split(c)` has one more piece than `s` has occurrences of `c` |
| Js.JoinSplit | parser.ts:28-30 | joining the pieces of a split with the same separator gives back the string |
| Js.Substring | stack.ts:53 | `substring` on in-range bounds is the slice; the result is never longer than the string |
| Literals.LiteralOf | parser.ts:41-68 | only `Number`, `String`, `Boolean` and `None` nodes parse; any other kind is `not literal` at the node; the only other failure is a number whose text is not decimal digits |
| Literals.NumberRoundTrip | parser.ts:44-48 | a number written in decimal is read back as that number |
| Literals.StringRoundTrip | parser.ts:49-55 | a string literal is read as the text between its first and last character |
| Literals.BooleanReading | parser.ts:56-60 | a boolean is true exactly when its text is `True`, false otherwise |
| Operators.BinOpOf | parser.ts:152-207 | a recognised token is the token of the operator returned |
| Operators.BinOpTable | parser.ts:152-207 | a token maps to an operator exactly when it is that operator's token (all 14 operators) |
| Operators.BinOpUnknown | parser.ts:201-206 | a token that spells no operator is rejected |
| Operators.UniOpOf | parser.ts:225-241 | a recognised token is the token of the operator returned |
| Operators.UniOpTable | parser.ts:225-241 | `-` is negation and `not` is logical not, and no other token maps |
| Calls.At | parser.ts:114-128 | `args[k]` is present exactly when `k` is in range, and then is that argument |
| Calls.RewriteCall | parser.ts:95-150 | a call or method call as callee stays a call, a lookup becomes a method call, a name is dispatched, and any other callee is `Unknown target` at the call |
| Calls.CallToShape | parser.ts:110-141 | `print`/`abs` give builtin1, `max`/`min`/`pow` builtin2, `range` a plain call, and every other name a call expression |
| Calls.CallToKeepsCall | parser.ts:110-141 | every shape keeps the called name and the first one, two or all arguments, in order |
| ExprFacts.CallRewritesCallee | parser.ts:88-150 | a `CallExpression` is its callee rewritten with its parsed arguments, in every branch |
| ExprFacts.ItemsIffInterleaved | parser.ts:443-455 | an argument or list display parses to `xs` exactly when item `j` is what child `i + 2j` parses to, none is the closing child, and the closer follows the last item |
| ExprFacts.ItemsAreInterleaved | parser.ts:443-455 | a parsed list is interleaved with its separators as above |
| ExprFacts.InterleavedAreItems | parser.ts:443-455 | conversely, an interleaved list is what the walk parses |
| ExprFacts.ItemsFromOver | parser.ts:443-455 | the walk equals parsing every child first and then walking |
| ExprFacts.BracketErrors | parser.ts:308-318 | empty brackets and more than two `:` are errors at the access |
| ExprFacts.BracketLookupWithoutColon | parser.ts:319-326 | without `:` the access is an element lookup keyed by the first content child |
| ExprFacts.SliceDefaults | parser.ts:279-352 | with one or two `:` tokens a parsed access is a slice of the object at the access, with one more part than `:` tokens; an empty start, end or stride is the literal 0, -1 or 1 |
| ExprFacts.SliceComponents | parser.ts:279-352 | a slice whose parts are each one child or empty (`a[1:2:3]`, `a[:2]`, `a[::]`) is the slice `SliceFrom` defines: start, end and stride are the expressions of the first, second and third written parts, else 0, -1 and 1 (the stride also when there is no third part); the first part that fails to parse is the failure |
| ExprFacts.OneColonStride | parser.ts:335-341 | with one `:` token a parsed slice has the stride literal 1 |
| ExprFacts.LayoutParts | parser.ts:297-318 | the `:`-token split of such contents yields, part by part, the text of the written child or the empty string |
| ExprFacts.LayoutCut | parser.ts:308-318 | such contents are not empty and split into exactly as many parts as the layout has, each non-empty exactly where a child is written |
| ExprFacts.ExprLocated | parser.ts:70-441 | every expression built for a node other than a parenthesized one carries that node's location; a `range` call, built without one, is the only exception |
| ExprFacts.ParenthesizedIsInner | parser.ts:219-224 | `( e )` is the expression `e`, location included |
| ExprFacts.BinaryShape | parser.ts:152-218 | `l op r` parses exactly when `l`, the operator and `r` do, and is then the binary operation at the node; an unknown operator is `Could not parse op` at the node |
| ExprFacts.UnaryShape | parser.ts:225-251 | `op e` parses exactly when the operator and `e` do, and is then the unary operation at the node; an unknown operator is rejected at the node |
| ExprFacts.FieldLookup | parser.ts:353-362 | `o.f` parses exactly when `o` does, and is the lookup of the field named by `f`'s text |
| ExprFacts.LambdaShape | parser.ts:408-433 | `lambda ps: e` is the lambda of the names in `ps` returning `e`, or `e`'s failure; without a parameter list it is `Invalid Lambda Expression` |
| ExprFacts.UnknownKindRejected | parser.ts:434-440 | a node of any other kind is `Could not parse expr` at the node |
| ExprFacts.DictEntriesInOrder | parser.ts:386-407 | dictionary entries are in order: key `j` is child `4j + 1` after the opening, and its value two children further |
| ExprFacts.DictFromOver | parser.ts:386-407 | the entry walk equals parsing every child first and then walking |
| ExprLoops.TraverseItems | parser.ts:370-385 | the item loop returns exactly the list the builder defines |
| ExprLoops.TraverseArguments | parser.ts:443-455 | `traverseArguments` returns exactly the items between the parentheses |
| ExprLoops.TraverseDict | parser.ts:386-407 | the dictionary loop returns exactly the entries the builder defines |
| ExprLoops.CollectLambdaParams | parser.ts:414-424 | the lambda loop collects the texts of the `VariableName` children, in order |
| Exprs.ParamNames | parser.ts:414-424 | a lambda has no more parameter names than its list has children |
| ExprFacts.ParamNamesMeaning | parser.ts:414-424 | a name is a lambda parameter exactly when some `VariableName` child of the list has that text |
| ExprFacts.ParamNamesSnoc | parser.ts:414-424 | one more child adds its text at the end when it is a `VariableName`, and nothing otherwise |
| Slices.CloseFrom | parser.ts:299-302 | the walk stops at the first child whose text is `]`; if none follows it never stops |
| Slices.CollectSliceItems | parser.ts:297-303 | the loop returns the concatenated texts up to the first `]` and its position, and is absent exactly when no `]` follows |
| Slices.PartsAsWritten | parser.ts:314 | splitting the concatenated text on every `:` yields at least one part |
| Slices.Parts | parser.ts:314 | splitting on `:` tokens yields at least one part |
| Slices.PartsAgree | parser.ts:297-314 | where every `:` is a token of its own, both splittings agree |
| Slices.PartsCount | parser.ts:314-319 | each `:` token opens one more part |
| Slices.EmptyTextEmptyParts | parser.ts:308-313 | empty contents give a single empty part |
| Slices.SeveralPartsSomeText | parser.ts:308-318 | contents split into two or more parts are not empty |
| Targets.TargetExprAt | parser.ts:462-466 | a target's expression is one child further after a `*` |
| Targets.TargetAt | parser.ts:458-487 | a read target reports where its expression is; a parse failure other than `Diverges` becomes `Expected assignment expression` at the target, and `Diverges` passes through |
| Targets.TargetMeaning | parser.ts:458-487 | a target is found exactly when its expression parses and is assignable; a parse failure is `Expected assignment expression` at the target, except `Diverges`, which passes through unchanged; it is ignored exactly for `_` and starred exactly after `*` |
| Targets.MoreTargets | parser.ts:497-515 | a loop run that succeeds ends on the `AssignOp` |
| Targets.DestructureOf | parser.ts:490-529 | a parsed left-hand side ends at the `AssignOp`, is located at the first target and has at least one target |
| Targets.MoreTargetsStarred | parser.ts:505-512 | the loop lets through at most one starred target, and none once one was seen |
| Targets.DestructureRules | parser.ts:490-529 | at most one starred target; a single target without a trailing comma is not starred; destructured exactly when the child after the first target is not the `AssignOp` |
| Targets.SecondStarredRejected | parser.ts:505-511 | a second starred target is an error |
| Targets.LoneStarredRejected | parser.ts:516-522 | a starred target alone is an error |
| Targets.MoreTargetsInOrder | parser.ts:497-515 | the loop's targets were read at strictly increasing child positions, in source order |
| Targets.DestructureInOrder | parser.ts:490-529 | the targets are read in source order, the first at child 0 |
| Targets.TraverseMoreTargets | parser.ts:495-515 | the loop returns exactly what the builder defines; it stays simple exactly when it starts on the `AssignOp` |
| Targets.TraverseDestructure | parser.ts:490-529 | `traverseDestructure` returns exactly the left-hand side the builder defines |
| Stmts.StmtResults | parser.ts:531-735 | one result per child |
| Stmts.StmtsFromCollect | parser.ts:641-644 | the statements from position `i` are the children's statements collected in order, failing at the first failure |
| Stmts.BlockInOrder | parser.ts:639-646 | a block parses to `ss` exactly when `ss` has one statement for each child after `:`, each what its child parses to |
| Stmts.IfWithoutElse | parser.ts:648-655 | an `if` without `else` after its then-block is rejected at the `if` |
| Stmts.ReturnNone | parser.ts:534-543 | a bare `return` returns the literal `None` at the statement |
| Stmts.ForTwoNames | parser.ts:697-722 | `for i, x in …` binds the first name as the index and the second as the element |
| Stmts.ForOneName | parser.ts:697-722 | `for x in e: b` parses exactly when `e` and `b` do, and binds `x` as the element with no index |
| Stmts.StmtLocated | parser.ts:531-735 | every statement built for a node carries that node's location |
| Stmts.SimpleStatements | parser.ts:691-735 | `pass`, `continue` and `break` are those statements at the node; a node of a kind that is no statement kind is `Could not parse stmt` at the node |
| Stmts.ExprStmtShape | parser.ts:602-606 | an expression statement is its expression at the statement, or that expression's failure |
| Stmts.ReturnValue | parser.ts:534-543 | `return e` returns `e` at the statement, or fails as `e` does |
| Stmts.AssignValue | parser.ts:544-601 | a left-hand side that fails fails the assignment; one that parses ends on an `AssignOp` after at least one target, and the value is the child right after it |
| Stmts.FirstTargetNotAssignOp | parser.ts:490-529 | a parsed left-hand side does not end on its first child |
| Stmts.WhileShape | parser.ts:672-690 | `while c: b` is the loop of `b` on `c` at the statement; the condition's failure comes before the block's |
| Stmts.IfElseShape | parser.ts:633-671 | `if c: b1 else: b2` parses exactly when `c`, `b1` and `b2` do, and is then the choice between the blocks at the statement |
| Stmts.TraverseStmt | parser.ts:531-735 | `traverseStmt` returns exactly the statement the builder defines |
| Stmts.TraverseAssign | parser.ts:544-601 | the assignment case returns exactly the builder's statement |
| Stmts.TraverseIf | parser.ts:633-671 | the `if` case, with both block loops, returns exactly the builder's statement |
| Stmts.TraverseWhile | parser.ts:672-690 | the `while` case returns exactly the builder's statement |
| Stmts.TraverseFor | parser.ts:697-722 | the `for` case returns exactly the builder's statement |
| Stmts.TraverseBlock | parser.ts:679-682 | the block loop returns exactly the builder's statements |
| Types.NamedTypes | parser.ts:761-778 | a plain annotation is `int`, `str` or `bool` exactly for those names, and otherwise the class of that name |
| Types.BracketArity | parser.ts:748-758 | a bracketed type is a list for one inner type and a dict for two; any other number is an error at the annotation |
| Types.ListShape | parser.ts:737-750 | `[t]` is the list of `t` |
| Types.DictShape | parser.ts:737-752 | `[k, v]` is the dictionary from `k` to `v` |
| Types.CallableParams | parser.ts:824-827 | argument type `i` becomes parameter `callable_i` of that type, with no default |
| Types.CallableNamesDistinct | parser.ts:824-827 | the parameter names of a callable type are pairwise distinct |
| Types.CallableShape | parser.ts:780-829 | a parsed `Callable[[…], r]` is a callable type whose parameters come from its argument types, in order |
| Types.CallableReturnsNone | parser.ts:808-819 | with no return type, or `None`, a callable returns the `None` type |
| Types.TraverseBracketType | parser.ts:737-759 | the bracket-type loop returns exactly the type the builder defines |
| Types.TraverseCallableArgs | parser.ts:795-802 | the argument loop returns exactly the argument types the builder defines |
| Types.TraverseCallable | parser.ts:780-829 | `traverseCallable` returns exactly the type the builder defines |
| Defs.ParamsDefaultsLast | parser.ts:836-866 | in a parsed parameter list, parameters with defaults come last; all of them do once one was seen |
| Defs.MissingTypeRejected | parser.ts:839-847 | a parameter without a type annotation is rejected |
| Defs.MissingDefaultRejected | parser.ts:860-863 | a parameter without a default after one with a default is rejected |
| Defs.TraverseParameters | parser.ts:831-870 | the parameter loop returns exactly the parameters the builder defines |
| Defs.VarInitRules | parser.ts:872-892 | without a `TypeDef` a variable init is `invalid variable init` at the statement; otherwise its name, type and literal initialiser come from the expected children, located at the statement |
| Defs.ScopeOf | parser.ts:894-910 | only `nonlocal` is accepted, and `nonlocal x` is the declaration of `x` at the statement; `global` is rejected as unsupported; any other keyword is `Invalid scope` at the statement |
| Defs.DefKindsExclusive | parser.ts:1029-1056 | the four definition classifiers look at the node's kind and at most one holds; an assignment is a variable init exactly when its second child is a `TypeDef` |
| Defs.DeclEnd | parser.ts:934-946 | the first loop stops at the first child that is not a variable init, scope or function definition |
| Defs.DeclsCount | parser.ts:934-946 | each leading declaration lands in exactly one of the inits, decls and funs lists |
| Defs.FunBodyPartition | parser.ts:927-951 | a function body splits into leading declarations and then one statement for each later child |
| Defs.TraverseDecls | parser.ts:934-946 | the first loop returns exactly the declarations the builder defines, and stops where `DeclEnd` says |
| Defs.TraverseStmtsFrom | parser.ts:948-951 | the second loop returns exactly the statements the builder defines |
| Defs.TraverseFunDef | parser.ts:912-957 | `traverseFunDef` returns exactly the function the builder defines |
| Defs.NoInit | parser.ts:986 | the count of `__init__` methods is zero exactly when no method is named `__init__` |
| Defs.InitSynthesis | parser.ts:986-997 | the parsed methods stay first and in order; the default constructor is appended exactly when none is named `__init__`; the result always has a constructor |
| Defs.ClassConstructor | parser.ts:959-1004 | a parsed class keeps its parsed methods first; its `__init__` count is that of the parsed methods, or 1 when there was none, and then the default constructor was appended |
| Defs.MembersOnly | parser.ts:969-982 | in a parsed class every child of the body after the colon is a field or a method |
| Defs.MemberAtIsMember | parser.ts:971-981 | a member that parses is a variable init or a function definition |
| Defs.TraverseMember | parser.ts:971-981 | one loop round returns exactly the member the builder defines |
| Defs.TraverseClass | parser.ts:959-1004 | `traverseClass` returns exactly the class the builder defines |
| Defs.TopEnd | parser.ts:1068-1079 | the first loop of `traverse` stops at the first child that is not a definition |
| Defs.TopDefsCount | parser.ts:1068-1079 | each leading definition lands in exactly one of the inits, funs and classes lists |
| Defs.ProgramPartition | parser.ts:1058-1094 | a program comes from a `Script`; its definitions number the leading definitions; it has one statement for every later child and no closures |
| Defs.DefsToTheEnd | parser.ts:1015-1026 | `traverseDefs` never returns when every child from its start on is a definition |
| Defs.DefsAgree | parser.ts:1006-1027 | before a child that is not a definition, `traverseDefs` reads what the first loop of `traverse` reads |
| Defs.TraverseTopDef | parser.ts:1069-1077 | one round returns exactly the definition the builder defines |
| Defs.TraverseDefs | parser.ts:1006-1027 | the `while (true)` loop returns exactly what the builder defines |
| Defs.Traverse | parser.ts:1058-1094 | `traverse` returns exactly the program the builder defines |
| Stack.StackManager.constructor | stack.ts:23-26 | a new tracker has no source files and an empty call stack |
| Stack.StackManager.PushStack | stack.ts:28-30 | the call stack gains the location at its end; the sources are unchanged |
| Stack.StackManager.PopStack | stack.ts:32-34 | the call stack loses its last frame, and an empty stack stays empty |
| Stack.Popped | stack.ts:32-34 | popping removes exactly the last frame, and nothing from an empty stack |
| Stack.PopUndoesPush | stack.ts:28-34 | a pop undoes a push |
| Stack.StackManager.CheckStackOverFlow | stack.ts:36-39 | raises exactly when the stack holds 200 frames or more; the error is the recursion error with the trace, or the type error rendering runs into |
| Stack.StackManager.CheckZeroDivision | stack.ts:41-44 | raises exactly when the divisor is 0, with the sources and a copy of the stack |
| Stack.StackManager.ToString | stack.ts:46-57 | the loop renders exactly the trace `Trace` defines |
| Stack.WindowStart | stack.ts:49 | at most the last four frames are shown |
| Stack.SnippetOf | stack.ts:51-53 | a frame has a snippet exactly when its file and line exist |
| Stack.SnippetOfNode | stack.ts:51-53 | a frame pushed with a node's location shows exactly that node's text |
| Stack.FramesFromEntries | stack.ts:49-55 | the loop from frame `i` succeeds exactly when every later frame resolves, and then renders the concatenated entries |
| Stack.TraceShape | stack.ts:46-57 | the trace shows the last `min(n, 4)` frames oldest first; the oldest is labelled `...` from 5 frames on and `main` otherwise, and each later one by the snippet before it; it exists exactly when every shown frame resolves |
| Stack.DeepCopy | stack.ts:60-66 | the copy has the same length and equal locations, element by element |
| Findings.FirstLineSnippetShifted | parser.ts:25-39 | on line 1 the original location's snippet is cut one character early; the corrected location's snippet is the node's text |
| Findings.ColonInStringKeyMakesSlice | parser.ts:297-326 | `a["x:y"]` is a slice as written, and an element lookup when split on `:` tokens |

## Left out

- The lezer grammar, the parser that builds the tree, and the tree cursor are not part of this model. The tree is an immutable value, and the cursor is an index into a node's children.
- `parse`, which runs the parser and then `traverse`, is not part of this model; `Defs.Traverse` starts from the root node.
- `repl.ts` is not part of this model.
- `importStackManager` is not part of this model. It wires the tracker to the WebAssembly imports. Its wrapper names its parameters `(col, line, …)` but forwards them in the same order to `pushStack(line, col, …)`, so `pushStack` receives whatever order the compiled code passes.
- The `console.log` calls in `traverseExpr` and `traverse` are not modelled. They are output only.
- Error message texts are not modelled. A failure records its kind and, when the original has one, its location.
- The `CompileError` thrown by `traverseParameters` gets an unassigned location. Here it carries none.
- Literals.LiteralOf: reads only decimal digit strings as numbers. `BigInt` also accepts hexadecimal, octal and binary prefixes and surrounding whitespace, and throws a `SyntaxError` on other text. Here every other text is a `BadNumber` failure.
- Entering a childless node (`firstChild` returning false) is the failure `Malformed`. The original's cursor stays on the node and later moves skip levels; that is not modelled.
- `isVarInit` on a childless `AssignStatement` is taken to be false. The original's cursor would instead step out of that node.
- A loop that never ends on a stuck cursor is a `Diverges` failure, not a hang.
- Stack.StackManager.CheckStackOverFlow: returns the error instead of throwing it. A frame naming a missing file or line makes the original throw a JavaScript `TypeError` while rendering; this is the `TypeError` case of `Stack.StackError`, with no message.
- Stack.DeepCopy: works on `seq` values, so the fresh array and the absence of aliasing are not modelled. Only the element-wise equality is stated.
- Stack.StackManager.PushStack: numbers are unbounded integers. JavaScript doubles, and non-integer or `NaN` arguments, are not modelled.
- `Stack.Entry` renders the line number with `Js.IntToString`, the decimal form of an integer. JavaScript's conversion of non-integer numbers is not modelled.
- `ASSIGNABLE_TAGS` comes from `ast.ts`, which is not part of this model. The assignable expressions are names, field lookups and element lookups (`Targets.Assignable`).
- The AST's type annotations, filled in by the type checker, are not modelled. Only the `Location` annotation the builder attaches is.
- Strings are sequences of Unicode characters. JavaScript indexes strings by UTF-16 code units, so `from`, `to`, columns and `substring` bounds differ from the original's for text outside the Basic Multilingual Plane.
- SourcePos.Pos: on line 1 the column is one larger than the original's (`from + 1` rather than `from`); every other line agrees. `SourcePos.GetSourcePosAsWritten` keeps the original formula (see Findings).
- Exprs.MemberOf: splits the contents of `[…]` on `:` tokens rather than on every `:` character of their concatenated text, so `a["x:y"]` is an element lookup here and a slice in the original (see Findings).
- ExprFacts.SliceComponents: covers contents whose parts are each one child or empty. A part made of several children is covered only by `ExprFacts.SliceDefaults`.
- The functions that build each node (`ExprOf`, `StmtOf`, `TypeOf`, `ParamsOf`, `FunDefOf`, `ClassOf`, `ProgramOf`, the `Is…` classifiers, `Stack.Trace` and others) carry no contract of their own. What they promise is stated by the lemmas and loop methods in the table above, each of which names them.
- The count of class members is not stated. `Defs.MembersOnly` states only that every child of the body is a member, not that each child contributes exactly one.

## Findings

| source | as written | input that shows it | evidently intended | confidence | as-written member | corrected member |
|---|---|---|---|---|---|---|
| parser.ts:25-39 | the column is `from` minus the length of the text before the last newline of the prefix. On line 1 no newline is subtracted, so the column is 0-based there and 1-based on every other line. `toString` cuts snippets from `col - 1` (stack.ts:53). | a call `f(1)` at the very start of a file: its frame shows `f(1` instead of `f(1)` | columns counted from 1 on every line | not executed | Findings.FirstLineSnippetShifted | SourcePos.FirstLineColumnIsZeroBased |
| parser.ts:297-314 | the texts of all children between `[` and `]` are concatenated, then split on every `:` character to count the slice parts | `a["x:y"]`: the key's own colon makes two parts, so the lookup becomes the slice `a["x:y":-1:1]` | only the `:` tokens among the bracket's children separate slice parts | not executed | Findings.ColonInStringKeyMakesSlice | Slices.PartsAgree |
