# patpat.js in Dafny

A model of the `src/` pipeline of patpat.js, a small interpreted language, with proofs about it.
A patpat program goes through four stages, and each is modelled here:

- **Lexer** (`lexer.dfy`). `get_terms` cuts each line into terms. At each column it tries twenty
  prefix matchers in the order of a stable sort by descending priority, and the first one that
  accepts wins. A quote switches it into string mode, where the string runs to the next quote not
  escaped by a backslash. A `//` ends the line. Whitespace terms are dropped.
- **Parser** (`parser.dfy`). `parse_body` walks the terms and turns each into an entry of the
  current branch. It recurses into `( … )` tuples and `{ … }` blocks and hands every finished
  branch to the mangler.
- **Mangler** (`mangle.dfy`). Eight rewrite passes run over a branch's entries, in a fixed order:
  `=>` function literals, `struct` definitions, calls, `.` member access, `!` expressions, binary
  expressions, `:` definitions and `let` declarations. Each pass folds a window of entries into
  one instruction with `insert`. Separators are stripped last, and a tuple's arity is recorded.
- **Evaluator** (`interpreter.dfy`, `blocks.dfy`, `args.dfy`, `context.dfy`). It walks the tree
  over a stack of Context frames:
  - a block pushes a frame and reads its patterns and structs ahead;
  - names are looked up from the innermost frame outward;
  - a call binds its arguments in a new frame on the caller's stack;
  - expressions run as a postfix stack machine, whose operator table is chosen by the type of
    the left operand.

Around these stages sit:

- the kind tags and operator tables of `src/kinds.js` (`kinds.dfy`);
- structs with their operator overloading and field defaults (`structs.dfy`);
- the prelude's frame and the `#break` protocol (`prelude.dfy`);
- the boolean, string and integer operator tables (`operators.dfy`);
- the JavaScript value semantics the evaluator relies on: truthiness, `===`, string conversion
  and number literals (`values.dfy`).

**Loops.** Every loop of the source is a `method` with a `while` or `for` loop and its invariants. Each
method is proved equal to the recursive function that specifies it:

- the scanner's loop over a line and over the lines;
- `parse_body`;
- every mangler pass;
- the read-ahead;
- running a block and filling a tuple;
- `distribute_args` and the binding of parameters;
- the expression stack machine;
- field initialisation;
- the operator table of a struct;
- the frame search;
- the loops of `#for` and `#while`.

Those functions carry the properties proved about them (`executors.dfy`, `evaluation.dfy`,
`instances.dfy`, `control.dfy`, `scoping.dfy`).

**Frames and instances.** The source mutates them in place. The model keeps them in an arena
`State`: a sequence of frames, a sequence of instances and the program's output.

- A stack is a sequence of frame ids.
- An instance value is an instance id.
- Every executor takes a state and returns the state it leaves.
- Sharing is kept by sharing ids:
  - a frame pushed on two stacks;
  - the `self` frame that reaches its instance's fields.

**Errors.** An exception aborts the whole run, so each stage returns a `Result`. An error is one
of:

- a CompileError or a RuntimeError, with its message and its 0-based line and column (the column
  counts Unicode characters, see "## Left out");
- a host error, for what the JavaScript engine itself would throw (a TypeError on `undefined`,
  or a ReferenceError for a name that is not in scope);
- an "unmodelled" outcome, for behaviour outside the model (see below).

**Recursion.** The evaluator's recursion is bounded by a fuel argument.

**Quirks.** Where the source behaves unexpectedly, the model does what the code does, except for
call_raw's argument-type check (see "## Left out", Interpreter.CallRaw). A lemma states each such
case:

- the two entries after a struct definition are skipped (`Mangle.StructSkipsTwo`);
- in `a.b.c` only the first `.` is folded (`Mangle.ChainedAccessorSkipped`), and the `.` left in place
  fails when it runs, since its executor reads a parent it does not have (`Instances.ChainedAccessFails`);
- `a - b - c` is `a - (b - c)` (`Evaluation.SubtractionGroupsRight`);
- boolean `!=` is `===` (`Operators.BoolNotEqualQuirk`);
- `\\n` unescapes to a backslash and a newline (`Parser.EscapedBackslashBeforeN`);
- a `}` at file level ends the program, and an unclosed tuple is accepted (`Parser.ClosingBracket`, `Parser.UnclosedTuple`);
- a quote at the end of a line is a one-character string (`Lexer.TrailingQuoteAccepted`);
- a `#` pattern name raises "CompileError is not defined", since the evaluator never imports
  that class (`Blocks.HoistRejects`);
- a user pattern given to `#for` is rejected (`Control.ForRejectsDefinedPattern`);
- constructing a struct through a method reports the pattern as "undefined" (`Instances.MethodIsNoConstructor`);
- `#while` with no loop fails on reading the absent loop's `kind`, although the loop is declared
  optional (`Control.WhileNeedsLoop`);
- a `#self()` parameter takes the first argument, not the instance (`Instances.SelfIsPositional`).

`src/patpat.js`, `src/errors.js` and `src/read_config.js` are not part of this model.

## Model

| member | source | states |
|---|---|---|
| Kinds.OperatorsPartition | src/kinds.js:61-81 | `!` is the only unary operator, every other operator is binary, and the operator list holds each operator exactly once |
| Kinds.MethodNames | src/kinds.js:83-97 | exactly the binary operators have an overloading method name, and that name is `#` followed by at least one letter |
| Kinds.EquivRoundTrip | src/kinds.js:83-97 | looking the method name of an operator up in the equivalence table gives that operator back |
| Kinds.EquivFromSound | src/kinds.js:83-97 | a hit found by scanning the equivalence table from an index is a row of the table at or after that index |
| Kinds.EquivSound | src/kinds.js:83-97 | a method name that the table maps to an operator is that operator's own method name, so the table is a bijection on its rows |
| Kinds.ValidExpTermsExclusions | src/kinds.js:99-114 | operators, `:`, `let`, `=>`, `;`, `,`, `struct`, pattern names and typenames are never expression terms |
| Structs.ClassifyAt | src/struct.js:15-17 | each pattern of a struct is classified by the operator whose method name it bears, or by none |
| Structs.BuildOperators | src/struct.js:14-23 | the loop over a struct's patterns builds exactly the operator table: each overloadable operator maps to the pattern named after it |
| Structs.TableStep | src/struct.js:15-23 | one step of the loop adds the pattern under its operator when its name is a method name and leaves the table as it was otherwise |
| Structs.OverloadName | src/struct.js:17 | a pattern name selects an operator if and only if it is that operator's method name |
| Structs.OverloadInjective | src/struct.js:17 | two pattern names that select the same operator are the same name |
| Structs.TableUpToSpec | src/struct.js:15-23 | after the first i patterns, an operator is in the table exactly when one of them selects it, and it maps to that pattern |
| Structs.ClassifyInjective | src/struct.js:15-17 | two patterns classified under the same operator have the same name |
| Structs.ClassifyMeaning | src/struct.js:17-18 | a pattern is classified under an operator if and only if its name is that operator's method name, and never under `!` |
| Structs.OperatorTableExact | src/struct.js:14-23 | for a struct with distinct pattern names, an operator is overloaded exactly when a pattern bears its method name, and it runs that pattern; `!` is never overloaded |
| Contexts.Alloc | src/context.js:4-9 | a new frame gets the next unused id, holds exactly the given frame, and every other frame, instance and the output stay as they were |
| Contexts.Tail | src/context.js:11-13 | `tail` gives a stack one longer that keeps the old stack as its prefix and ends with the new frame |
| Contexts.OwnerBelow | src/interpreter.js:41-66 | the search from the top of the stack finds the highest frame that binds the name, with no frame above it binding it, or reports that no frame does |
| Contexts.FindOwner | src/interpreter.js:50-57 | the downward loop over the stack returns the same frame as the search specification |
| Contexts.FindSymbolSpec | src/interpreter.js:50-57 | a symbol lookup is NOT_FOUND when no frame binds the name and otherwise is the value bound in the innermost frame that does |
| Contexts.WriteField | src/interpreter.js:277-279 | writing a field of an instance sets that field, leaves its other fields, every other instance and every frame as they were |
| Contexts.AllocInstance | src/struct.js:26-28 | a new instance is appended to the heap with the next unused id, leaving frames and output unchanged |
| Contexts.WriteFound | src/interpreter.js:206-212 | writing a name in the frame that owns it makes the name read as the new value and leaves every other name reading as before |
| Contexts.DeclareFound | src/interpreter.js:221-234 | writing a name in the innermost frame makes it read as the new value, even where an outer frame binds it, and leaves every other name as before |
| Contexts.OwnerAfterPut | src/interpreter.js:206-212 | writing an existing name, or any name other than the one looked up, does not change which frame owns the looked-up name |
| Contexts.PushTransparent | src/context.js:11-13 | pushing a frame that does not bind a name leaves the owner of that name among the older frames unchanged |
| Contexts.PushedLookup | src/context.js:11-13 | pushing a frame that does not bind a name leaves the name reading as before |
| Contexts.SameFramesOwner | src/interpreter.js:41-66 | the owner of a name depends only on the frames, not on the instances or the output |
| Contexts.SameFramesLookup | src/interpreter.js:50-57 | a symbol lookup depends only on the frames, so writing an instance field never changes a variable |
| Contexts.TopLookup | src/interpreter.js:50-57 | a name bound in the innermost frame reads as that frame's binding |
| Values.Collapse | src/interpreter.js:73-74 | a one-element array collapses to its element; every other value is left as it is |
| Values.Nth | src/prelude.js:44 | reading an argument past the end of the argument array gives undefined |
| Values.StrictEq | src/prelude.js:230 | `===` fails in the model only when both sides are identity objects of the same shape; a true answer means the values are equal, and on plain values the answer is value equality |
| Values.StrictEqSymmetric | src/prelude.js:242 | `===` gives the same answer with its operands swapped |
| Values.DigitChar | src/parser.js:319 | a digit below ten prints as the character with that code offset from '0' |
| Values.NatToDecimal | src/parser.js:319 | an integer prints as a non-empty run of digits with no leading zero |
| Values.DotIndex | src/parser.js:319 | the split point of a NUMBER term is its first '.', or its end when there is none |
| Values.NumberValue | src/parser.js:134-140 | the value of a NUMBER term, when inside the model, is a number |
| Values.DecimalDigits | src/parser.js:139 | the digits printed for a natural number read back as that number |
| Values.NoDotInDigits | src/parser.js:319 | a run of digits has no fractional part |
| Values.DecimalRoundTrip | src/parser.js:134-140 | printing an integer and reading it back as a NUMBER term gives the same integer |
| Values.NumberExamples | src/parser.js:319 | a trailing '.' or a sign still reads as an integer, while a fraction with a non-zero digit is reported as outside the model |
| Values.ToStringFails | src/prelude.js:14 | converting a value to text fails exactly when it is a Symbol or an array holding one at any depth |
| Values.JoinFails | src/prelude.js:14 | joining a list of values fails exactly when one of them holds a Symbol |
| Operators.TruncRem | src/prelude.js:226 | JavaScript's `%` on integers: the remainder is smaller than the divisor in size and, when non-zero, takes the sign of the dividend |
| Operators.NumOp | src/prelude.js:221-236 | arithmetic on two numbers gives a number and every comparison gives a boolean |
| Operators.NumComparisons | src/prelude.js:230-235 | `==` and `!=` on numbers are equality and its negation, and `<`/`<=` are `>`/`>=` with the operands swapped |
| Operators.RemainderSign | src/prelude.js:226 | `-7 % 2` is -1 and `7 % -2` is 1, as JavaScript truncates |
| Operators.BoolOpsOnBooleans | src/prelude.js:238-248 | on two booleans each boolean operator computes its logical meaning (`<` is "a is false and b is true", and so on), except `!=`, which computes the negation of that meaning |
| Operators.BoolNotEqualQuirk | src/prelude.js:243 | boolean `!=` is written as `===`, so `true != false` is false and `true != true` is true |
| Operators.RepeatLength | src/prelude.js:254 | repeating a string n times gives n times its length |
| Operators.RepeatFront | src/prelude.js:254 | repeating a string n + 1 times is the string followed by its n-fold repetition |
| Operators.StringOps | src/prelude.js:250-261 | `+` concatenates a string with a string or with the decimal text of a number; `*` by a number repeats it and by anything else is a RuntimeError; `==` is strict equality and `!=` its negation |
| Operators.StringTableSize | src/prelude.js:250-261 | strings support exactly `+`, `*`, `==` and `!=` |
| Arguments.SelfValue | src/interpreter.js:484 | the SELF parameter receives the instance when it is truthy and null otherwise |
| Arguments.Distribute | src/interpreter.js:483-505 | a successful distribution gives one value per parameter |
| Arguments.DistributeArgs | src/interpreter.js:483-505 | the loop over the parameters returns what the distribution function specifies |
| Arguments.DistributeErrPersists | src/interpreter.js:494-500 | once the distribution has failed, later parameters do not change the error |
| Arguments.PositionalBound | src/interpreter.js:494 | a positional parameter consumes an argument that the whole parameter list counts |
| Arguments.PositionalMonotone | src/interpreter.js:488-503 | the number of positional parameters seen never decreases along the list |
| Arguments.DistributeSpec | src/interpreter.js:483-505 | distribution succeeds if and only if there are at least as many arguments as positional parameters (and the last value is readable when an LHS parameter asks for it); then each parameter receives its own argument, the instance or the last value, and otherwise the error is "Not enough arguments" |
| Arguments.DistributeOneSpec | src/interpreter.js:489-502 | one parameter succeeds exactly when it has what it asks for, appends exactly its value and advances the argument index past positional parameters only |
| Arguments.BindParams | src/interpreter.js:124-126 | the loop that stores the distributed values under the parameter names builds the binding function |
| Arguments.BindSpec | src/interpreter.js:124-126 | a name is bound after the loop exactly when some parameter has it, and, names being distinct, it holds that parameter's value |
| Blocks.HoistDefinitions | src/interpreter.js:16-26 | the read-ahead loop over a block's instructions returns the frame that the read-ahead function specifies |
| Blocks.HoistErrPersists | src/interpreter.js:18-20 | once the read-ahead has failed, the rest of the block does not change the error |
| Blocks.HoistRejects | src/interpreter.js:17-20 | the read-ahead fails exactly when the block defines a pattern whose name starts with `#`, and then the error is the host's "CompileError is not defined", since the evaluator never imports CompileError |
| Blocks.HoistFinds | src/interpreter.js:16-26 | after the read-ahead the frame has no symbols and a null last value, and each pattern and struct name maps to its last definition in the block |
| Blocks.SetSlot | src/interpreter.js:200 | assigning `elements[n]` puts the value in slot n, fills any gap with undefined, and leaves the other slots as they were |
| Blocks.WidthBound | src/interpreter.js:193-204 | the width of a tuple is at most its current slot plus one, and exactly that when the last entry is a value |
| Blocks.WidthStep | src/interpreter.js:196-201 | storing a value in the current slot grows the array to the width of the tuple so far |
| Blocks.WidthExamples | src/interpreter.js:193-204 | `(a; b)` has two slots, `(a b)` one (the later value overwrites), and `(; a)` two, the first left undefined |
| Prelude.PreludeNames | src/prelude.js:214-216 | in the initial state, the prelude frame binds `__break` to the BREAK Symbol |
| Interpreter.RunBlock | src/interpreter.js:10-37 | running a block only adds frames and instances and never changes an existing instance's struct or its set of fields; an empty block returns null, the initial `last_value` |
| Interpreter.RunFrom | src/interpreter.js:28-31 | running the remaining instructions keeps that heap invariant and, with none left, leaves the state as it was (its result: `Scoping.RunFromLast`) |
| Interpreter.Exec | src/interpreter.js:68-78 | dispatching any instruction to its executor keeps the heap invariant |
| Interpreter.FillFrom | src/interpreter.js:193-204 | evaluating the entries of a tuple keeps the heap invariant and yields an array exactly as wide as the tuple's slots |
| Interpreter.CallPattern | src/interpreter.js:80-100 | calling a pattern by name keeps the heap invariant (its dispatch: `Calls.PatternCallDispatch`) |
| Interpreter.CallFunction | src/interpreter.js:102-113 | calling a function value keeps the heap invariant (its dispatch: `Calls.FunctionCallDispatch`) |
| Interpreter.CallRaw | src/interpreter.js:115-167 | binding the arguments in a new frame and running the body keeps the heap invariant |
| Interpreter.Invoke | src/prelude.js:97-101 | running a callee through its host function or through call_raw keeps the heap invariant |
| Interpreter.CallBuiltin | src/prelude.js:8-211 | the host function of a prelude pattern keeps the heap invariant |
| Interpreter.IfBuiltin | src/prelude.js:44-68 | `#if` keeps the heap invariant (its branches: `Control.IfTrue`, `Control.IfFalse`, `Control.IfNeedsBranch`) |
| Interpreter.ExecuteOfFalsy | src/prelude.js:59-61 | calling `_execute` on `#if`'s falsy condition fails reading a property of null or of undefined exactly when the condition is null or undefined, and otherwise fails because there is no such function |
| Interpreter.ForBuiltin | src/prelude.js:78-93 | `#for`, with three or four arguments, keeps the heap invariant |
| Interpreter.ForLoop | src/prelude.js:94-107 | each iteration of `#for` keeps the heap invariant (its result: `Control.ForSteps`, `Control.ForRuns`, `Control.ForStopsAtBreak`) |
| Interpreter.WhileBuiltin | src/prelude.js:116-134 | `#while` keeps the heap invariant (its argument checks: `Control.WhileArguments`) |
| Interpreter.WhileLoop | src/prelude.js:135-150 | each iteration of `#while` keeps the heap invariant |
| Interpreter.DefineSymbolExec | src/interpreter.js:206-219 | an assignment keeps the heap invariant (its effect: `Scoping.AssignEvaluated`) |
| Interpreter.DeclareSymbolExec | src/interpreter.js:221-235 | a declaration keeps the heap invariant (its effect: `Scoping.DeclareEvaluated`) |
| Interpreter.StructInitExec | src/interpreter.js:237-263 | a successful struct construction found the struct in scope and returns a fresh instance (not a self copy) of that struct with exactly the struct's fields |
| Interpreter.NewInstance | src/struct.js:26-46 | a new instance is fresh, belongs to the given struct and has exactly its fields |
| Interpreter.InitFields | src/struct.js:36-45 | the loop over the struct's fields binds exactly the names already bound plus every remaining field (their values: `Instances.LiteralFields`, `Instances.NullFields`) |
| Interpreter.DefineMemberExec | src/interpreter.js:265-282 | assigning an instance field keeps the heap invariant, so it never adds a field (its effect: `Instances.AssignFieldEvaluated`) |
| Interpreter.MemberAccess | src/interpreter.js:284-343 | reading a field or calling a method keeps the heap invariant (its cases: `Instances.ReadField`, `Instances.MethodCall`, `Instances.MemberOfNonInstance`) |
| Interpreter.EvalSteps | src/interpreter.js:345-446 | evaluating the postfix steps of an expression keeps the heap invariant |
| Interpreter.PushOperand | src/interpreter.js:349-378 | an operand step pushes at most one value and leaves the rest of the value stack as it was |
| Interpreter.ApplyOp | src/interpreter.js:379-440 | an operator step needs two operands when binary and one when unary, replaces them by one result, and leaves the stack below them as it was |
| Interpreter.OperatorCall | src/interpreter.js:385-422 | choosing the operator table by the type of the left operand and applying its entry keeps the heap invariant (its tables: `Evaluation.OperatorTables`) |
| Interpreter.StructOperator | src/struct.js:19-21 | a struct's operator method, called with the right operand and the left as the instance, keeps the heap invariant (its call: `Instances.OperatorRunsMethod`) |
| Executors.RunInstructions | src/interpreter.js:28-31 | the loop that runs a block's instructions, storing each result as the frame's last value, returns what the block semantics specifies |
| Executors.TupleElements | src/interpreter.js:193-204 | the loop over a tuple's entries, counting markers and assigning slots, returns what the tuple semantics specifies |
| Executors.ExecuteSteps | src/interpreter.js:345-446 | the loop over an expression's postfix steps with its value stack returns what the expression semantics specifies |
| Executors.InitialiseFields | src/struct.js:36-45 | the loop that gives each field of a new instance its default, or null, returns what the field semantics specifies |
| Executors.ForLoopMethod | src/prelude.js:94-107 | the counting loop of `#for`, with its break test, returns what the `#for` semantics specifies |
| Executors.WhileLoopMethod | src/prelude.js:135-150 | the condition loop of `#while`, with its break test, returns what the `#while` semantics specifies |
| Evaluation.PushSymbol | src/interpreter.js:369-373 | a symbol step pushes the variable's value, or fails with "Undefined variable" when no frame binds it |
| Evaluation.OperatorOnNumber | src/interpreter.js:385-389 | an operator whose left operand is a number applies the number table and changes no state |
| Evaluation.ApplyToNumbers | src/interpreter.js:414-425 | a binary operator pops the two numbers on top of the value stack and pushes its result in their place |
| Evaluation.SubtractTop | src/interpreter.js:414-425 | `-` replaces the top two numbers x, y by x - y, the lower one being the left operand |
| Evaluation.OperandStep | src/interpreter.js:349-378 | an operand step that changes no state continues the expression with the value pushed |
| Evaluation.ApplyStep | src/interpreter.js:379-440 | an operator step that changes no state continues the expression with the stack it leaves |
| Evaluation.PushThree | src/interpreter.js:369-373 | three symbol steps push the three variables' values in order |
| Evaluation.SubtractStep | src/interpreter.js:414-425 | a `-` step on a stack ending in x, y continues with x - y |
| Evaluation.SubtractTwice | src/interpreter.js:414-425 | two `-` steps over x, y, z leave x - (y - z) |
| Evaluation.ChainSteps | src/interpreter.js:345-446 | the postfix program `a b c - -` evaluates to a - (b - c) |
| Evaluation.ExpressionValue | src/interpreter.js:445 | an expression's value is the bottom of its value stack when the steps leave exactly one value |
| Evaluation.ChainValue | src/interpreter.js:345-446 | the expression instruction for `a b c - -` evaluates to a - (b - c) and changes no state |
| Evaluation.SubtractionGroupsRight | src/mangle.js:293-330 | `a - b - c`, mangled into one expression and evaluated, is a - (b - c): the mangler groups equal-precedence operators to the right |
| Evaluation.OperatorTables | src/interpreter.js:385-412 | the table is the left operand's: a boolean or a string uses its own table, a missing entry failing with "No (or invalid) operator" for `<bool>` or `<string>` and an entry's result being the value; an instance uses its struct's operators, a missing one failing with the struct's name; any other left operand fails with a host error |
| Calls.PatternCallDispatch | src/interpreter.js:80-100 | a pattern missing from the scope fails with "Pattern not found" before the arguments run; otherwise an error of the arguments is the result, or the pattern runs on their values, by its host function when it has one and by call_raw on the caller's stack otherwise |
| Calls.FunctionCallDispatch | src/interpreter.js:102-113 | an absent callee is a host error and any callee that is not a FUNCTION fails with "Left-hand-side call value is not a function" before the arguments run; a FUNCTION runs by call_raw on the caller's stack with the arguments' values |
| Instances.NullFields | src/struct.js:36-45 | fields without a default are all bound to null, without touching the state |
| Instances.NewInstanceNull | src/struct.js:32-46 | a new instance of a struct without defaults is the next instance id and holds null in exactly the struct's fields |
| Instances.AssignField | src/interpreter.js:265-282 | `o.m = text` fails with "Variable not found in o" when the instance lacks the field; otherwise it returns the old value, sets the field, leaves the other fields and every frame as they were |
| Instances.ReadField | src/interpreter.js:301-308 | `o.m` reads the instance's field, or fails with "Variable not found in o" when it has none |
| Instances.AssignThenRead | src/interpreter.js:265-308 | reading a field right after assigning it gives the assigned value |
| Instances.SelfBinding | src/struct.js:48-52 | over the frame of `to_context`, which a constructor and a struct operator run under, `self` reads as a copy of the instance and every other name as before |
| Instances.MethodIsNoConstructor | src/interpreter.js:248-250 | constructing a struct through a method fails with "Pattern undefined is not a constructor.", since the message reads a name the constructor reference does not have |
| Instances.LiteralFields | src/struct.js:36-45 | over fields with literal defaults and distinct names, the field loop leaves the instances and the output alone, binds each field to its default's value, and leaves every other key as it was |
| Instances.NewInstanceDefaults | src/struct.js:32-46 | a new instance of a struct whose defaults are literals is the next instance id and holds each field's default value, and nothing under any other name |
| Instances.DefaultScope | src/struct.js:37-41 | a default is evaluated over the prelude and one fresh frame only: a name the prelude does not bind fails with "Undefined variable", whatever the creating code binds |
| Instances.AssignFieldEvaluated | src/interpreter.js:265-282 | `o.m = e` fails with "Variable not found in o" before `e` runs when the field is missing; otherwise an error of `e` is the result, or the result is the field's value from before `e` ran, and the instance then holds `e`'s value in `m`, with its other fields and every frame as `e` left them |
| Instances.MethodCall | src/interpreter.js:309-321 | `o.m(args)` fails with "Pattern not found in o" when the struct has no pattern `m` and with "Pattern is not a method" when it is not flagged as one, both before the arguments run; otherwise the method runs by call_raw on the caller's own stack, with no `self` frame; the instance is its `instance` option, which no parameter the mangler builds reads |
| Instances.SelfIsPositional | src/interpreter.js:488-502 | `#self()` in an argument tuple is a positional parameter named `self`; a method `(#self(), x) => ...` called with one argument fails with "Not enough arguments", whatever instance option it gets |
| Instances.MemberOfNonInstance | src/interpreter.js:294-299 | a member of a falsy value fails with "Variable not found"; a member of any other value that is not an instance fails with "Cannot access member of" the parent's kind, at the parent |
| Instances.FieldStep | src/interpreter.js:301-308 | the instruction `o.m` evaluates to the field of the instance `o` names and changes no state |
| Instances.ChainedAccessFails | src/interpreter.js:284-292 | the block `a.b.c`, as the accessor pass leaves it, fails with the TypeError of reading `kind` of the leftover `.`'s missing parent, even where `a.b` reads a field |
| Instances.OperatorRunsMethod | src/interpreter.js:414-422 | a struct operator applied to an instance runs its pattern with the right operand as its only argument, over the `to_context` frame pushed on the caller's stack: the parameters read their values, `self` (unless a parameter takes that name) reads a copy of the instance, and every other name reads as for the caller |
| Instances.OperatorOnCopyFails | src/interpreter.js:418-420 | an operator applied to a copy of an instance, as `self` holds in a constructor or an operator, fails: the copy has no `to_context` |
| Control.IfTrue | src/prelude.js:49-56 | with a truthy condition `#if` runs a callable success branch and otherwise returns it as the value |
| Control.IfFalse | src/prelude.js:57-67 | with a falsy condition `#if` returns null when the else branch is absent, fails reading `kind` of a null else branch, returns a non-callable else branch as it is, calls a callable one, and for a host pattern fails calling `_execute` on the falsy condition instead |
| Control.IfNeedsBranch | src/prelude.js:45-47 | `#if` without a truthy success branch fails with a RuntimeError at the call's position |
| Control.ForArguments | src/prelude.js:79-92 | with three arguments `#for` steps by 1 and calls the third; a last argument that is not a function or pattern is rejected with "Last argument must be a function!" |
| Control.ForRejectsDefinedPattern | src/prelude.js:90-92 | a user-defined pattern passed to `#for` is rejected, since its kind is DEFINE_PATTERN and not PATTERN |
| Control.ForRuns | src/prelude.js:94-107 | `#for` from `from` to `to` calls the body on every integer in between and returns the last result, or the previous value when the range is empty |
| Control.ForEmpty | src/prelude.js:94-107 | an empty `#for` range returns null without calling the body |
| Control.ForStopsAtBreak | src/prelude.js:102-104 | when the body returns a break tuple `#for` stops and returns the value the tuple carries |
| Control.ForArgumentsWithStep | src/prelude.js:78-92 | with four arguments `#for` takes the third as its step and calls the fourth; a last argument that is not a function or pattern is rejected |
| Control.ForSteps | src/prelude.js:94-107 | with a positive step, `#for` runs its function on x, x + s, … below `to` in order, each turn in the state the previous one left, and returns the last turn's result, or the previous value where there is no turn |
| Control.ForNeverAdvances | src/prelude.js:95-106 | with a step that is not positive over a non-empty range, `#for` never returns a value unless a turn breaks |
| Control.BreakFrames | src/prelude.js:175-199 | running `#break` pushes two frames, the callee's and the block's |
| Control.BreakLookups | src/prelude.js:175-199 | inside `#break`, `__value` reads as the argument and `__break` as it does for the caller |
| Control.SymbolValue | src/interpreter.js:185-191 | a bound symbol evaluates to its value and changes no state |
| Control.BreakSlots | src/prelude.js:184-196 | the tuple in `#break`'s body fills its two slots with the BREAK Symbol and the value |
| Control.BreakTupleValue | src/prelude.js:184-196 | the tuple in `#break`'s body evaluates to the array [BREAK, value] |
| Control.BreakBlockValue | src/prelude.js:183-198 | `#break`'s body, run with `__value` bound, returns [BREAK, value] |
| Control.BreakArgument | src/prelude.js:177-182 | `#break`'s single argument is bound to `__value` |
| Control.RawCallRunsBody | src/interpreter.js:115-167 | call_raw runs the callee's body over the caller's stack with one new frame binding the distributed arguments |
| Control.BreakCall | src/prelude.js:175-199 | calling `#break v` returns a break tuple [BREAK, v] |
| Control.BreakTupleNotFound | src/prelude.js:184-196 | the tuple in `#break`'s body fails with "Undefined variable: __value" when `__value` holds NOT_FOUND |
| Control.BreakBlockNotFound | src/prelude.js:183-198 | `#break`'s body, run with `__value` bound to NOT_FOUND, fails the same way |
| Control.BreakNotFound | src/prelude.js:175-199 | calling `#break` with NOT_FOUND, the value of a pattern missing from the scope, fails with "Undefined variable: __value" instead of breaking |
| Control.WhileArguments | src/prelude.js:116-134 | `#while` refuses a falsy or non-callable condition; fails reading `kind` of an absent or null loop; refuses any other falsy loop; fails with "fn is not defined" for a host-pattern condition; and otherwise runs its loop from a null last value |
| Control.WhileNeedsLoop | src/prelude.js:113-122 | `#while` with only a condition fails on the absent loop, although the loop is declared optional |
| Control.WhileStops | src/prelude.js:135-150 | `#while` returns the last loop value as soon as the condition is falsy |
| Control.WhileStopsAtBreak | src/prelude.js:144-146 | when the loop body breaks, `#while` returns the whole break tuple when it carries a non-null value, and the last loop value otherwise |
| Control.ErrorAlwaysFails | src/prelude.js:208-210 | `#error` always fails, with "Runtime Error" alone when its argument is falsy and followed by ": " and the argument's text otherwise |
| Scoping.AssignLiteral | src/interpreter.js:206-219 | `name = text` fails when no frame binds the name; otherwise it returns the old value, the name then reads as the new text, and every other name reads as before |
| Scoping.DeclareShadows | src/interpreter.js:221-235 | `let name` fails on a duplicate in the innermost frame; otherwise the name reads as null even where an outer frame binds it, and every other name reads as before |
| Scoping.ReservedNameRejected | src/interpreter.js:17-20 | a block that defines a pattern with a `#` name fails before running anything |
| Scoping.ReadAhead | src/interpreter.js:15-26 | over the block's stack, each pattern the block defines anywhere is found as its last definition, and every symbol reads as before |
| Scoping.CalleeScope | src/interpreter.js:115-126 | in a callee, a parameter name reads as its argument and every other name reads as for the caller: calls see the caller's stack, not the definition's |
| Scoping.NotEnoughArguments | src/interpreter.js:494-500 | a call with fewer arguments than positional parameters fails with "Not enough arguments" |
| Scoping.TupleArity | src/interpreter.js:193-204 | a tuple evaluates to an array with one slot per marker-separated group |
| Scoping.TupleValue | src/interpreter.js:193-204 | a tuple evaluates to the array its entries fill |
| Scoping.ElementStep | src/interpreter.js:199-201 | an entry of a tuple goes to the slot its preceding markers give it |
| Scoping.MarkerStep | src/interpreter.js:197-198 | a `;` marker evaluates nothing and only moves to the next slot |
| Scoping.AssignEvaluated | src/interpreter.js:206-219 | `name = e` fails with "No definition of name found" before `e` runs when no frame binds the name; otherwise an error of `e` is the result, or the result is the old value and `e`'s value is written into the innermost frame that bound the name before `e` ran |
| Scoping.AssignReads | src/interpreter.js:206-219 | after `name = e`, where `e` leaves the owner of the name in place, the name reads as `e`'s value and every other name as `e` left it |
| Scoping.DeclareEvaluated | src/interpreter.js:221-235 | `let name = e` fails on a duplicate in the innermost frame before `e` runs; otherwise an error of `e` is the result, or the result is undefined, the name reads as `e`'s value even where an outer frame binds it, and every other name as `e` left it |
| Scoping.RunFromLast | src/interpreter.js:28-31 | running a block's instructions is running all but the last, then the last in the state they leave, its value becoming the frame's `last_value` |
| Scoping.BlockValue | src/interpreter.js:10-37 | a non-empty block's value is its last instruction's, evaluated in the state the earlier ones leave over the block's frame; a read-ahead error or the first error of an instruction is the block's error |
| Scoping.StrayDotFails | src/interpreter.js:284-288 | a block holding a bare `.` never gives a value, and reaching the `.` fails with the TypeError of reading `kind` of its missing parent |
| Mangle.Insert | src/mangle.js:510-512 | `insert` replaces `length` instructions at `source` by the one instruction and keeps everything before and after |
| Mangle.ParamsFromSpec | src/mangle.js:358-389 | reading a parameter tuple fails exactly when an entry is neither a symbol, a `;` nor a `#self` call; otherwise the function is a method exactly when some entry is `#self`, and the parameters are the entries' names in order |
| Mangle.SelfThenSymbol | src/mangle.js:360-380 | the argument tuple `(#self(), x)` gives a method whose parameters are `self` then `x`, both positional |
| Mangle.CollectParams | src/mangle.js:358-389 | the loop over the parameter tuple returns what the parameter specification gives |
| Mangle.MangleFunctions | src/mangle.js:336-402 | the `=>` pass, as a loop over the instruction list, returns what its specification gives |
| Mangle.ArrowAt | src/mangle.js:342-356 | at a `=>` the pass fails with the host TypeError when nothing precedes it or nothing follows it, with "Invalid term preceding arrow" when the entry before it is not a tuple, and with "Invalid term following arrow" when the entry after it is neither a block nor a tuple |
| Mangle.FunctionsNoArrow | src/mangle.js:336-402 | after a successful `=>` pass no `=>` is left in the list |
| Mangle.CollectMembers | src/mangle.js:424-442 | the loop over a struct body returns what the member specification gives |
| Mangle.MembersFromFields | src/mangle.js:427-435 | a struct's field names stay distinct, and each field is its last `let` in the body |
| Mangle.LastDeclarationCons | src/mangle.js:427-435 | the last declaration of a name in a body is the one in its tail if any, else the head when it declares the name |
| Mangle.StructError | src/mangle.js:412-422 | a `struct` keyword is accepted exactly when it has a following block and is preceded by a typename and a `:` at positions 2 and above |
| Mangle.MangleStruct | src/mangle.js:404-453 | the `struct` pass, as a loop, returns what its specification gives |
| Mangle.StructFoldStep | src/mangle.js:410-450 | at a `struct` keyword the pass fails with the keyword's own error or with a member error, and otherwise goes on after the typename, `:`, keyword and block are replaced by the struct |
| Mangle.StructStep | src/mangle.js:444-450 | folding a struct definition at n replaces the four instructions from n - 2 by the struct, so the loop's next index skips the two instructions after it |
| Mangle.StructsPass | src/mangle.js:409-410 | an instruction that is not `struct` passes through the pass unchanged |
| Mangle.StructSkipsTwo | src/mangle.js:444-452 | the two instructions right after a struct definition are never examined, so a `struct` keyword there is left in place |
| Mangle.MangleCalls | src/mangle.js:168-214 | the call pass, as a loop, returns what its specification gives |
| Mangle.CallsFolded | src/mangle.js:174-213 | after the call pass no callee is left directly followed by an argument tuple |
| Mangle.CallsNestLeft | src/mangle.js:183-210 | `f(a)(b)` folds to a call of the call `f(a)` with `(b)` |
| Mangle.AccessorError | src/mangle.js:464-476 | a `.` is accepted exactly when it has a valid parent before it and a valid member after it |
| Mangle.MangleAccessors | src/mangle.js:455-501 | the `.` pass, as a loop, returns what its specification gives |
| Mangle.AccessorStep | src/mangle.js:478-498 | folding an accessor at n replaces the three instructions from n - 1 by one, so the loop's next index skips the instruction after it |
| Mangle.ChainedAccessorSkipped | src/mangle.js:462-500 | in `a.b.c` only `a.b` is folded; the second `.` is skipped and left in place |
| Mangle.UnaryRun | src/mangle.js:233-240 | the scan for consecutive `!` operators stops at the first instruction that is not one |
| Mangle.MangleUnary | src/mangle.js:216-258 | the unary pass, as a loop, returns what its specification gives |
| Mangle.ScanUnaries | src/mangle.js:230-240 | the inner loop finds the end of the run of `!` operators and collects them in order |
| Mangle.UnaryStep | src/mangle.js:250-255 | folding a unary expression replaces the operators and their operand by the one expression |
| Mangle.OpStepsAppend | src/mangle.js:238 | collecting one more operator appends its step |
| Mangle.UnaryRunIs | src/mangle.js:233-240 | the run of `!` operators is exactly the prefix that holds nothing else |
| Mangle.UnaryFolded | src/mangle.js:222-257 | after a successful unary pass no `!` operator is left |
| Mangle.OperatorError | src/mangle.js:276-289 | a binary operator is accepted exactly when it has an expression term on both sides |
| Mangle.ChainFrom | src/mangle.js:293-308 | the scan for further operands of the same operator only moves forward within the list |
| Mangle.Repeat | src/mangle.js:322 | the operator is pushed once per pair of neighbouring elements |
| Mangle.BuildSteps | src/mangle.js:310-322 | the loop that builds the postfix steps of a chain returns what the step specification gives |
| Mangle.MangleExpressions | src/mangle.js:260-334 | the binary-operator pass, as a loop, returns what its specification gives |
| Mangle.ScanChain | src/mangle.js:291-308 | the inner loop collecting operands of one operator returns what the chain specification gives |
| Mangle.ExpressionStep | src/mangle.js:324-331 | folding a chain replaces the instructions from the first operand by the expression |
| Mangle.ExpressionsFolded | src/mangle.js:274-333 | after a successful expression pass no operator is left |
| Mangle.ChainStep | src/mangle.js:294-304 | the same operator followed by an expression term extends the chain by that term |
| Mangle.ExpressionsFold | src/mangle.js:274-331 | an operator with valid neighbours folds its left neighbour and the whole chain into one expression |
| Mangle.ChainOfThree | src/mangle.js:274-331 | `a op b op c` becomes the one expression `a b c op op` |
| Mangle.ThreeSteps | src/mangle.js:310-322 | the postfix steps of `a, b, c` under one operator are `a b c op op` |
| Mangle.MangleDefine | src/mangle.js:89-166 | the `:` pass, swept right to left as a loop, returns what its specification gives |
| Mangle.DefinesFolded | src/mangle.js:99-165 | after a successful `:` pass no `:` is left |
| Mangle.DefinePass | src/mangle.js:99-100 | an instruction that is not `:` passes through the right-to-left sweep unchanged |
| Mangle.DefineFold | src/mangle.js:115-163 | a `:` with a valid left side folds its two neighbours into the definition |
| Mangle.DefineRightToLeft | src/mangle.js:97-99 | `a: b: v` becomes `a` defined as the definition of `b` as `v` |
| Mangle.MangleDeclaration | src/mangle.js:37-87 | the `let` pass, as a loop, returns what its specification gives |
| Mangle.DeclarationsFolded | src/mangle.js:44-86 | after a successful `let` pass no `let` is left, and any `let` inside a tuple is an error |
| Mangle.StripSeparators | src/mangle.js:503-508 | stripping leaves no `,` and keeps exactly the other instructions |
| Mangle.StripAppend | src/mangle.js:503-508 | stripping a concatenation gives the concatenation of the stripped pieces |
| Mangle.StripKeeps | src/mangle.js:503-508 | each entry stays in its place, once, exactly when it is not a separator: the result is the input filtered in order |
| Mangle.MangleBody | src/mangle.js:9-35 | the passes run in their fixed order and the separators are stripped, giving what the mangling specification gives |
| Lexer.MatchersStablySorted | src/parser.js:306-328 | the twenty matchers are tried in the order of a stable sort by descending priority |
| Lexer.EveryMatcherTried | src/parser.js:306-325 | every matcher appended to the table is among those the scanner tries |
| Lexer.Span | src/parser.js:306 | the length of the longest prefix of characters of one class never exceeds the input |
| Lexer.SpanMaximal | src/parser.js:306 | that prefix holds only characters of the class and stops at the first one outside it |
| Lexer.PatternTail | src/parser.js:308 | the part of a pattern name after its first word character never exceeds the input |
| Lexer.NumberLength | src/parser.js:319 | a NUMBER match never exceeds the input |
| Lexer.OperatorLength | src/parser.js:318 | an OPERATOR match never exceeds the input |
| Lexer.MatchLength | src/parser.js:288-299 | the length a matcher's anchored expression accepts never exceeds the input |
| Lexer.FirstMatchIn | src/parser.js:208-223 | a match found by trying a list of matchers in order is non-empty and within the input |
| Lexer.FirstMatch | src/parser.js:208-223 | a match found by trying the sorted table is non-empty and within the input |
| Lexer.FirstMatchInSpec | src/parser.js:208-223 | the first match in a list is the first matcher that accepts, all earlier matchers rejecting, and no match means every matcher rejects |
| Lexer.FirstMatchSound | src/parser.js:209-219 | the length recorded for the first match is the length its matcher accepts |
| Lexer.FirstMatchBounds | src/parser.js:314 | a STRING match is the one opening quote |
| Lexer.FirstMatchFirst | src/parser.js:208-223 | the scanner's word comes from the highest-priority matcher that accepts, and "Unrecognized term" means none does |
| Lexer.NoMatchAtAll | src/parser.js:226-227 | when nothing matches, every matcher rejects the input |
| Lexer.NoEmptyMatch | src/parser.js:306-325 | no matcher accepts the empty string |
| Lexer.ArrowWins | src/parser.js:321 | `=>` is read as one ARROW term, never as DEFINE or an operator |
| Lexer.CommentWins | src/parser.js:307 | `//` is read as a comment, never as two divisions |
| Lexer.FirstMatchInAt | src/parser.js:208-223 | when the matchers before index j all reject and j accepts, j gives the first match |
| Lexer.FirstMatchIs | src/parser.js:208-223 | the same for the sorted table |
| Lexer.MinusRejectedBefore | src/parser.js:318-319 | every matcher of higher priority than NUMBER rejects text starting with `-` |
| Lexer.NegativeNumberWins | src/parser.js:318-319 | `-` followed by a digit is read as a negative NUMBER, not as the operator `-` |
| Lexer.LetterRejected | src/parser.js:322 | every matcher of higher priority than LET rejects "letter" |
| Lexer.KeywordPrefix | src/parser.js:322 | "letter" starts with the keyword `let`: the scanner reads its first three characters as LET |
| Lexer.QuoteRejectedBefore | src/parser.js:314 | every matcher of higher priority than STRING rejects text starting with a quote |
| Lexer.QuoteWins | src/parser.js:314 | a quote is read as the one-character STRING opener |
| Lexer.TerRejected | src/parser.js:316 | every matcher of higher priority than SYMBOL rejects "ter" |
| Lexer.KeywordRemainder | src/parser.js:316 | after `let`, the rest "ter" of "letter" is read as a SYMBOL |
| Lexer.Blank | src/parser.js:189 | blanking escapes keeps the length of the text |
| Lexer.BlankOnlyErases | src/parser.js:189 | blanking only turns characters into spaces |
| Lexer.EscapedQuoteBlanked | src/parser.js:189 | an escaped quote is blanked, so it never closes a string |
| Lexer.FindQuote | src/parser.js:190 | a found quote lies inside the text |
| Lexer.FindQuoteFirst | src/parser.js:190 | the quote found is the first one, and no quote found means there is none |
| Lexer.ScanFromTiles | src/parser.js:184-233 | scanning a line from any column yields a tiling of the rest of the line, or fails with one of the two line errors |
| Lexer.WordTiles | src/parser.js:208-222 | scanning from a column where an ordinary matcher wins yields a tiling |
| Lexer.WordScanned | src/parser.js:212-219 | an ordinary word is what the scanner takes at its column and ends where the next one starts |
| Lexer.ScanStringTiles | src/parser.js:188-206 | scanning from an opening quote yields a tiling or the "No closing string term" error |
| Lexer.StringTiles | src/parser.js:192-203 | a string closed on its line is one term up to the closing quote, followed by a tiling of the rest |
| Lexer.ScanFromWord | src/parser.js:212-219 | an ordinary word is followed by the terms from where it ends |
| Lexer.ScanFromQuote | src/parser.js:230-231 | a quote switches the scanner to string mode |
| Lexer.ScanStringClosed | src/parser.js:192-203 | a closed string replaces its opening quote by the whole string, with its `char` one past the opening quote, and scanning resumes after the closing quote |
| Lexer.ClosedStringScanned | src/parser.js:192-203 | a closed string is what the scanner takes at its opening quote and ends right after its closing quote |
| Lexer.ScannedClosed | src/parser.js:192-203 | a string term that runs from a quote to the first unescaped quote is what the scanner takes |
| Lexer.TilesScan | src/parser.js:184-233 | scanning gives back any tiling of the line |
| Lexer.TilesScanLast | src/parser.js:226-233 | a comment, or a quote at the very end of the line, is the last term |
| Lexer.BareQuoteLast | src/parser.js:184 | a quote that is the last character ends the scan with no error |
| Lexer.CommentLast | src/parser.js:228-229 | a comment ends the line |
| Lexer.TilesScanStep | src/parser.js:184-233 | a scanned term followed by the scan of the rest is the scan from its column |
| Lexer.TilesScanString | src/parser.js:188-203 | the same for a closed string |
| Lexer.TilesScanWord | src/parser.js:208-222 | the same for an ordinary word |
| Lexer.NormalStart | src/parser.js:180-182 | the scanner's loop starts in normal mode with no words at column 0 |
| Lexer.NormalStep | src/parser.js:208-232 | in normal mode the loop appends the winning word and enters string mode after a quote |
| Lexer.NormalWord | src/parser.js:208-222 | an ordinary word keeps the loop in normal mode |
| Lexer.NormalComment | src/parser.js:228-229 | a comment ends the line's words with the comment |
| Lexer.NormalQuote | src/parser.js:230-231 | a quote is one character and puts the loop in string mode |
| Lexer.StringClosed | src/parser.js:192-203 | in string mode a closing quote replaces the opener by the whole string and returns to normal mode |
| Lexer.StringStep | src/parser.js:192-203 | the same, as one step of the loop state |
| Lexer.StringUnclosed | src/parser.js:204-205 | a string with no closing quote fails with "No closing string term" at the column after the opener |
| Lexer.NoMatchFails | src/parser.js:226-227 | a column where no matcher accepts fails with "Unrecognized term" |
| Lexer.LineEnd | src/parser.js:184 | at the end of the line the words are the result, in either mode |
| Lexer.ScanLine | src/parser.js:180-233 | the scanner's loop over one line returns what the line grammar gives |
| Lexer.ScanIffTiles | src/parser.js:180-233 | a line scans to a list of terms if and only if the list tiles the line |
| Lexer.TrailingQuoteAccepted | src/parser.js:184-233 | a quote that is the last character of a line is kept as a one-character STRING term, with no error |
| Lexer.TilesOrdered | src/parser.js:180-233 | the terms of a line are on that line, scanned in place and in column order |
| Lexer.DropSpaces | src/parser.js:235 | dropping whitespace terms never lengthens the list |
| Lexer.DropSpacesKeeps | src/parser.js:235 | dropping whitespace keeps exactly the terms whose word is not all whitespace, and keeps their order |
| Lexer.DropSpacesAppend | src/parser.js:235 | dropping whitespace distributes over concatenation |
| Lexer.DropSpacesIdempotent | src/parser.js:235 | dropping whitespace twice is dropping it once, so filtering the whole accumulator at every line changes nothing |
| Lexer.SpaceWins | src/parser.js:306 | the SPACE matcher wins exactly at a whitespace character and then takes only whitespace |
| Lexer.ScannedSpace | src/parser.js:235 | a scanned term is all whitespace exactly when it is a SPACE term, so the filter removes exactly those |
| Lexer.Segments | src/parser.js:178 | splitting on newlines gives at least one piece |
| Lexer.SegmentsJoin | src/parser.js:178 | the pieces joined by newlines give back the text, there is one more piece than newlines, and no piece holds a newline |
| Lexer.SplitLinesCount | src/parser.js:178 | a program has one more line than newlines, and without carriage returns its lines join back to it |
| Lexer.NoCR | src/parser.js:178 | without carriage returns no line loses a character |
| Lexer.TermsFromSound | src/parser.js:178-238 | the terms of a program are in line and column order, each scanned in place on its line and none a SPACE term; a failure is a line error on one of the lines |
| Lexer.LineTermsKept | src/parser.js:235 | the terms of one line, whitespace dropped, followed by the later lines' terms stay in order |
| Lexer.GetTerms | src/parser.js:170-239 | the loop over the lines returns what the program grammar gives |
| Lexer.TermsStep | src/parser.js:179-236 | one iteration appends the line's terms and re-filters the accumulator, which matches appending the line's filtered terms |
| Parser.ReplaceAbsent | src/parser.js:263-265 | replacing a pattern whose first character does not occur leaves the text as it is |
| Parser.ReplaceShrinks | src/parser.js:263-265 | replacing a pattern by something no longer never lengthens the text |
| Parser.EscapesPlainText | src/parser.js:256-266 | text without a backslash has no escapes to convert, and converting escapes never lengthens a string |
| Parser.EscapeTable | src/parser.js:263-265 | `\"` becomes a quote, `\n` a newline and `\\` one backslash |
| Parser.EscapedBackslashBeforeN | src/parser.js:263-265 | the replacements run in sequence, `\n` before `\\`, so `\\n` becomes a backslash and a newline rather than a backslash and "n" |
| Parser.OperatorTable | src/parser.js:329-344 | each operator has exactly one spelling in the table, and the table reads it back as that operator |
| Parser.OperatorWordKnown | src/parser.js:318 | every word the OPERATOR matcher accepts is in the operator table |
| Parser.Unquote | src/parser.js:101 | `slice(1, -1)` drops the first and the last character, giving nothing for a word shorter than two |
| Parser.TermInstr | src/parser.js:49-159 | each plain term becomes the entry of its kind at its position: names keep their word, a string its unquoted and unescaped text, an operator the tag its word spells, a boolean whether its word is "true" |
| Parser.TermInstrs | src/parser.js:38-163 | plain terms become one entry each, in order |
| Parser.ScannedParseable | src/parser.js:208-235 | every non-whitespace term the scanner produces is one the parser can take |
| Parser.TermsParseable | src/parser.js:14-21 | every term list the scanner produces for a program is one the parser can take |
| Parser.Finish | src/parser.js:70-72 | a finished branch reports the number of terms it consumed |
| Parser.SkipFrom | src/parser.js:44-46 | skipping a comment passes exactly the following terms on the same line |
| Parser.SkipLine | src/parser.js:43-46 | a comment always moves the parser forward, at most to the end of the input |
| Parser.ParseFrom | src/parser.js:37-167 | a parse from index n consumes at least the terms it passed and no more than there are |
| Parser.ParseStep | src/parser.js:42-162 | a comment skips its line, a closer ends the branch when it closes the branch's own context and is a CompileError otherwise, and a plain term is pushed as its entry |
| Parser.NestedStep | src/parser.js:58-88 | an opening bracket parses the sub-branch; its failure is the result, and otherwise its twig is pushed and the parser resumes after the terms it consumed |
| Parser.ParseBody | src/parser.js:26-168 | the loop of parse_body returns what the parser specification gives |
| Parser.CloseBody | src/parser.js:69-95 | at a closing bracket the loop finishes the branch when the bracket closes its own context, and otherwise fails as the parse does |
| Parser.ParseTerm | src/parser.js:39-162 | one iteration of the loop advances the index and keeps the outcome of the whole parse unchanged, or fails as the parse does |
| Parser.ParseNested | src/parser.js:58-88 | the recursive call for a bracket advances past the sub-branch and keeps the outcome unchanged, or fails as the parse does |
| Parser.SkipComment | src/parser.js:43-46 | the inner loop that skips a comment's line stops where the specification says |
| Parser.EndBody | src/parser.js:165-167 | at the end of its slice the loop finishes the branch with every term consumed, as the parse does |
| Parser.FinishBody | src/parser.js:165-167 | mangling the branch at the end of the loop gives the finishing specification |
| Parser.ParseStops | src/parser.js:37-167 | a successful parse ends either at the end of the terms or right after a bracket that closes its own context |
| Parser.StopsAtEnd | src/parser.js:69-95 | the parse ends at the end of the terms, or right after its own closer, or fails there |
| Parser.ParseStopsNested | src/parser.js:58-88 | the same holds where the parse starts at an opening bracket |
| Parser.PlainRun | src/parser.js:37-163 | a run of plain terms is pushed as their entries, in order |
| Parser.TermInstrsCons | src/parser.js:38-163 | the entries of a run are those of its first term followed by those of the rest |
| Parser.PushRun | src/parser.js:38-163 | pushing the first term of a run and then the rest pushes the whole run |
| Parser.ClosingBracket | src/parser.js:69-97 | a closer after plain terms ends the branch there when it closes its own context, whatever follows (at file level a `}` ends the program), and is rejected otherwise |
| Parser.UnclosedTuple | src/parser.js:58-68 | a tuple left open at the end of the input is accepted, its branch mangled as if closed after the last term |
| Parser.RunToEnd | src/parser.js:37-167 | with only plain terms to the end, parse_body pushes them all and mangles the branch |
| Parser.CommentHidesLine | src/parser.js:43-46 | a comment hides the rest of its line from the parser |
| Parser.SkipHidden | src/parser.js:44-45 | the comment skip stops exactly at the first term of a later line |
| Parser.Parse | src/parser.js:8-24 | parsing a program returns what the program specification gives: the root block's instructions |

## Left out

- Command line, file reading, configuration and module resolution (`src/patpat.js`, `src/read_config.js`): I/O outside the language core.
- USE and LOAD instructions and module values: the parser never produces them, and their trees come from the file system. A member access on a module is not modelled.
- Error rendering of `src/errors.js`: presentation only. Errors are values carrying the message and the 0-based position.
- `'print` and `'println` write to standard output. The model appends the joined text to an output string in the state.
- `'ident` is marked in the source as about to be removed. Calling it is an unmodelled outcome.
- `'version` and `#break` are called through `call_raw` with their bodies. Calling them as host functions is the host error the source would raise.
- Operators.NumOp: numbers are unbounded integers, not float64. These are unmodelled outcomes: a fractional quotient; division by zero (Infinity or NaN); a remainder by zero; the 32-bit bitwise operators (`&&`, `||` and `!` on numbers); and arithmetic or ordering where either operand is not a number, including a one-element array. JavaScript coerces such operands: `1 + "a"` is "1a", `1 + true` is 2, `1 < "2"` is true and `[5] + 1` is "51".
- Lexer.ScanLine: columns count Unicode code points, because a Dafny `char` is one scalar value, while `get_terms` counts UTF-16 code units (`line.length`, `slice` and `result.input.length`, src/parser.js:184-219). After a character at or above U+10000 every later column on that line, in `Lexer.ScanFrom` and `Lexer.ScanString` too, is one smaller per such character than in the source: for the line `"😀" @` the model reports "Unrecognized term" at column 4 where the source reports 5. Term positions and every error position built from them inherit this.
- Values.NumberValue: a NUMBER term with a non-zero fractional digit is an unmodelled outcome.
- Control.ForRuns: `#for` bounds and steps that are not integers are unmodelled outcomes.
- Interpreter.CallRaw: the argument-type check of `call_raw` is not modelled. The mangler never sets `types`, which the model reads as "no annotations", so the check can never fire. A literal reading of the source would instead throw a TypeError on every call.
- `declaration_context` is not recorded on pattern definitions, since only the type check reads it.
- Values.StrictEq: the identity of arrays, function literals, pattern objects and `self` copies is not tracked. `===` between two of them is an unmodelled outcome.
- A struct definition is compared by value, not by identity. This only matters to the type check, which is left out.
- Interpreter.RunBlock: the evaluator's host recursion is bounded by fuel. Running out is an unmodelled outcome, never a value; stack exhaustion of the host is not modelled.
- Interpreter.RunFrom: its own contract states only the heap invariant; the value it computes is stated by `Scoping.RunFromLast` and `Scoping.BlockValue`.
- Interpreter.CallPattern: its own contract states only the heap invariant; its lookup, error and dispatch are stated by `Calls.PatternCallDispatch`.
- Interpreter.ForLoop: its own contract states only the heap invariant; its turns and result are stated by `Control.ForSteps`, `Control.ForRuns`, `Control.ForStopsAtBreak` and `Control.ForNeverAdvances`.
- Interpreter.DefineSymbolExec: its own contract states only the heap invariant; its effect is stated by `Scoping.AssignEvaluated` and `Scoping.AssignReads`.
- Interpreter.DeclareSymbolExec: its own contract states only the heap invariant; its effect is stated by `Scoping.DeclareEvaluated` and `Scoping.DeclareShadows`.
- Interpreter.InitFields: its own contract states the field names only; the values are stated by `Instances.LiteralFields`, `Instances.NullFields` and `Instances.DefaultScope`, for literal defaults. A default that is any other expression is covered only by the names and the prelude-only scope.
- Interpreter.DefineMemberExec: its own contract states only the heap invariant; its effect is stated by `Instances.AssignFieldEvaluated`.
- Interpreter.MemberAccess: its own contract states only the heap invariant; its cases are stated by `Instances.ReadField`, `Instances.MethodCall` and `Instances.MemberOfNonInstance`.
- Interpreter.OperatorCall: its own contract states only the heap invariant; its table choice is stated by `Evaluation.OperatorTables` and `Evaluation.OperatorOnNumber`.
- Interpreter.StructOperator: its own contract states only the heap invariant; its call is stated by `Instances.OperatorRunsMethod` and `Instances.OperatorOnCopyFails`.
- Interpreter.CallFunction: an argument list that does not evaluate to an array is an unmodelled outcome.
- Frames and instances are updated in place in the source. The model passes an arena state from step to step and keeps sharing through ids, so aliasing and order of updates are preserved. Object identity beyond those ids is not.
- JavaScript object key order is kept as insertion order in association lists. `__proto__` and other inherited property names are not treated specially.
- Host errors carry the JavaScript engine's usual message text, which is approximate: the model does not distinguish reading a property of `null` from reading one of `undefined` in every place.
- Parser.ParseBody: the parser is specified over terms the lexer can produce (`AllParseable`), which is what `parser` passes it.
- Control.BreakCall: assumes the carried value is not NOT_FOUND. A pattern missing from the scope evaluates to NOT_FOUND and a variable can hold it, but `#break` with it fails instead (`Control.BreakNotFound`).
- The older top-level copies of the pipeline (`interpreter.js`, `mangle.js`, `parser.js`, `prelude.js`, `kinds.js`) are an earlier generation and are not modelled.
- The matchers are hand-written prefix recognisers for the regular expressions of `src/parser.js:306-325`, not a general regular-expression engine.
