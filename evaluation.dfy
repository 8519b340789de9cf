// What `execute_expression` (src/interpreter.js) computes for the postfix steps the mangler builds:
// operands are pushed, an operator pops its operands and pushes the table's result, and a chain of
// one operator therefore groups to the right.

module Evaluation {

  import opened Errors
  import opened Syntax
  import opened Values
  import opened Operators
  import opened Contexts
  import opened Interpreter
  import M = Mangle
  import K = Kinds

  /** A symbol operand pushes the value it is bound to, and an unbound one is an error. */
  lemma PushSymbol(a: string, p: Pos, vals: seq<Value>, st: State, stack: Stack, fuel: nat)
    requires fuel >= 1
    ensures FindSymbol(st, stack, a) == NotFound ==>
      PushOperand(Symbol(a, p), vals, st, stack, fuel) == Err(RuntimeError("Undefined variable " + a, p))
    ensures FindSymbol(st, stack, a) != NotFound ==>
      PushOperand(Symbol(a, p), vals, st, stack, fuel) == Ok((st, vals + [FindSymbol(st, stack, a)]))
  {
  }

  /** NUM_OPS is the table of a number on the left, and its entry's result is the operator's value. */
  lemma OperatorOnNumber(op: K.Op, x: int, b: Value, st: State, stack: Stack, fuel: nat)
    requires fuel >= 1 && NumOp(op, Num(x), b).Ok?
    ensures OperatorCall(op, Num(x), Num(x), b, st, stack, fuel) == Ok(Done(st, NumOp(op, Num(x), b).value))
  {
  }

  /**
   * A binary operator over two numbers on top of the value stack replaces them by the NUM_OPS
   * result, the first pushed being the left operand; the rest of the stack and the state are kept.
   */
  lemma ApplyToNumbers(op: K.Op, vals: seq<Value>, x: int, y: int, v: Value, st: State, stack: Stack, fuel: nat)
    requires fuel >= 2 && K.IsBinary(op) && NumOp(op, Num(x), Num(y)) == Ok(v)
    ensures ApplyOp(op, vals + [Num(x), Num(y)], st, stack, fuel) == Ok((st, vals + [v]))
  {
    var s := vals + [Num(x), Num(y)];
    assert s[|s| - 2] == Num(x) && s[|s| - 1] == Num(y) && s[..|s| - 2] == vals;
    OperatorOnNumber(op, x, Num(y), st, stack, fuel - 1);
    assert !NumOp(op, Num(x), Num(y)).value.Arr?;
  }

  /** `-` on the top two numbers of the value stack leaves their difference there. */
  lemma SubtractTop(vals: seq<Value>, x: int, y: int, st: State, stack: Stack, fuel: nat)
    requires fuel >= 2
    ensures ApplyOp(K.OpSub, vals + [Num(x), Num(y)], st, stack, fuel) == Ok((st, vals + [Num(x - y)]))
  {
    assert K.IsBinary(K.OpSub);
    assert NumOp(K.OpSub, Num(x), Num(y)) == Ok(Num(x - y));
    ApplyToNumbers(K.OpSub, vals, x, y, Num(x - y), st, stack, fuel);
  }

  /** One operand step of the stack machine that leaves the state as it is. */
  lemma OperandStep(steps: seq<Step>, k: nat, vals: seq<Value>, vals': seq<Value>, st: State, stack: Stack, fuel: nat)
    requires k < |steps| && steps[k].Operand? && fuel >= 1
    requires PushOperand(steps[k].instr, vals, st, stack, fuel - 1) == Ok((st, vals'))
    ensures EvalSteps(steps, k, vals, st, stack, fuel) == EvalSteps(steps, k + 1, vals', st, stack, fuel)
  {
  }

  /** One operator step of the stack machine that leaves the state as it is. */
  lemma ApplyStep(steps: seq<Step>, k: nat, vals: seq<Value>, vals': seq<Value>, st: State, stack: Stack, fuel: nat)
    requires k < |steps| && steps[k].Apply? && fuel >= 1
    requires ApplyOp(steps[k].op, vals, st, stack, fuel - 1) == Ok((st, vals'))
    ensures EvalSteps(steps, k, vals, st, stack, fuel) == EvalSteps(steps, k + 1, vals', st, stack, fuel)
  {
  }

  /** The three operand steps of `a b c - -` push the three values in order. */
  lemma PushThree(steps: seq<Step>, a: string, b: string, c: string, p: Pos, x: int, y: int, z: int, st: State, stack: Stack, f: nat)
    requires f >= 3 && |steps| == 5
    requires steps[0] == Operand(Symbol(a, p)) && steps[1] == Operand(Symbol(b, p)) && steps[2] == Operand(Symbol(c, p))
    requires FindSymbol(st, stack, a) == Num(x) && FindSymbol(st, stack, b) == Num(y) && FindSymbol(st, stack, c) == Num(z)
    ensures EvalSteps(steps, 0, [], st, stack, f) == EvalSteps(steps, 3, [Num(x), Num(y), Num(z)], st, stack, f)
  {
    PushSymbol(a, p, [], st, stack, f - 1);
    assert [] + [Num(x)] == [Num(x)];
    OperandStep(steps, 0, [], [Num(x)], st, stack, f);
    PushSymbol(b, p, [Num(x)], st, stack, f - 1);
    assert [Num(x)] + [Num(y)] == [Num(x), Num(y)];
    OperandStep(steps, 1, [Num(x)], [Num(x), Num(y)], st, stack, f);
    PushSymbol(c, p, [Num(x), Num(y)], st, stack, f - 1);
    assert [Num(x), Num(y)] + [Num(z)] == [Num(x), Num(y), Num(z)];
    OperandStep(steps, 2, [Num(x), Num(y)], [Num(x), Num(y), Num(z)], st, stack, f);
  }

  /** A `-` step over two numbers on top of the value stack. */
  lemma SubtractStep(steps: seq<Step>, k: nat, vals: seq<Value>, pre: seq<Value>, post: seq<Value>, x: int, y: int,
                     st: State, stack: Stack, f: nat)
    requires f >= 3 && k < |steps| && steps[k] == Apply(K.OpSub)
    requires pre == vals + [Num(x), Num(y)] && post == vals + [Num(x - y)]
    ensures EvalSteps(steps, k, pre, st, stack, f) == EvalSteps(steps, k + 1, post, st, stack, f)
  {
    SubtractTop(vals, x, y, st, stack, f - 1);
    ApplyStep(steps, k, pre, post, st, stack, f);
  }

  /** The two operator steps of `a b c - -` reduce the three values to `x - (y - z)`. */
  lemma SubtractTwice(steps: seq<Step>, x: int, y: int, z: int, st: State, stack: Stack, f: nat)
    requires f >= 3 && |steps| == 5 && steps[3] == Apply(K.OpSub) && steps[4] == Apply(K.OpSub)
    ensures EvalSteps(steps, 3, [Num(x), Num(y), Num(z)], st, stack, f) == Ok((st, [Num(x - (y - z))]))
  {
    var w := y - z;
    SubtractStep(steps, 3, [Num(x)], [Num(x), Num(y), Num(z)], [Num(x), Num(w)], y, z, st, stack, f);
    SubtractStep(steps, 4, [], [Num(x), Num(w)], [Num(x - w)], x, w, st, stack, f);
  }

  /** The steps of `a b c - -` leave `a - (b - c)` alone on the value stack. */
  lemma ChainSteps(steps: seq<Step>, a: string, b: string, c: string, p: Pos, x: int, y: int, z: int, st: State, stack: Stack, f: nat)
    requires f >= 3 && |steps| == 5
    requires steps[0] == Operand(Symbol(a, p)) && steps[1] == Operand(Symbol(b, p)) && steps[2] == Operand(Symbol(c, p))
    requires steps[3] == Apply(K.OpSub) && steps[4] == Apply(K.OpSub)
    requires FindSymbol(st, stack, a) == Num(x) && FindSymbol(st, stack, b) == Num(y) && FindSymbol(st, stack, c) == Num(z)
    ensures EvalSteps(steps, 0, [], st, stack, f) == Ok((st, [Num(x - (y - z))]))
  {
    PushThree(steps, a, b, c, p, x, y, z, st, stack, f);
    SubtractTwice(steps, x, y, z, st, stack, f);
  }

  /** An expression's value is the bottom of the value stack its steps leave. */
  lemma ExpressionValue(steps: seq<Step>, o: Option<K.Op>, p: Pos, v: Value, st: State, stack: Stack, fuel: nat)
    requires fuel >= 1 && EvalSteps(steps, 0, [], st, stack, fuel - 1) == Ok((st, [v]))
    ensures Exec(Expression(steps, o, p), st, stack, fuel) == Ok(Done(st, v))
  {
  }

  /** The expression `a b c - -` evaluates to `a - (b - c)` and changes nothing. */
  lemma ChainValue(a: string, b: string, c: string, p: Pos, q: Pos, x: int, y: int, z: int, st: State, stack: Stack, fuel: nat)
    requires fuel >= 4
    requires FindSymbol(st, stack, a) == Num(x) && FindSymbol(st, stack, b) == Num(y) && FindSymbol(st, stack, c) == Num(z)
    ensures Exec(Expression([Operand(Symbol(a, p)), Operand(Symbol(b, p)), Operand(Symbol(c, p)), Apply(K.OpSub), Apply(K.OpSub)],
                            Some(K.OpSub), q), st, stack, fuel)
      == Ok(Done(st, Num(x - (y - z))))
  {
    var steps := [Operand(Symbol(a, p)), Operand(Symbol(b, p)), Operand(Symbol(c, p)), Apply(K.OpSub), Apply(K.OpSub)];
    ChainSteps(steps, a, b, c, p, x, y, z, st, stack, fuel - 1);
    ExpressionValue(steps, Some(K.OpSub), q, Num(x - (y - z)), st, stack, fuel);
  }

  /** `a - b - c`, mangled, is one expression, and it computes `a - (b - c)`. */
  lemma SubtractionGroupsRight(a: string, b: string, c: string, p: Pos, ctx: Ctx, x: int, y: int, z: int,
                               st: State, stack: Stack, fuel: nat)
    requires fuel >= 4
    requires FindSymbol(st, stack, a) == Num(x) && FindSymbol(st, stack, b) == Num(y) && FindSymbol(st, stack, c) == Num(z)
    ensures var e := M.Expressions([Symbol(a, p), Operator(K.OpSub, p), Symbol(b, p), Operator(K.OpSub, p), Symbol(c, p)], ctx);
      e.Ok? && |e.value| == 1 && Exec(e.value[0], st, stack, fuel) == Ok(Done(st, Num(x - (y - z))))
  {
    M.ChainOfThree(Symbol(a, p), Symbol(b, p), Symbol(c, p), K.OpSub, p, ctx);
    ChainValue(a, b, c, p, p, x, y, z, st, stack, fuel);
  }

  /**
   * The table is the left operand's: a boolean or a string on the left uses its own table, where
   * a missing entry is an error naming `<bool>` or `<string>` and an entry's result is the
   * operator's value; an instance on the left uses its struct's operators, a missing one being an
   * error naming the struct; anything else on the left has no table at all.
   */
  lemma OperatorTables(op: K.Op, lhs: Value, a: Value, b: Value, st: State, stack: Stack, fuel: nat)
    requires fuel >= 1
    ensures var r := OperatorCall(op, lhs, a, b, st, stack, fuel);
      lhs.Bool? ==>
        (!BoolHas(op) ==> r == Err(NoOperator(op, "<bool>")))
        && (BoolHas(op) ==> (r.Ok? <==> BoolOp(op, a, b).Ok?) && (r.Ok? ==> r.value == Done(st, BoolOp(op, a, b).value)))
    ensures var r := OperatorCall(op, lhs, a, b, st, stack, fuel);
      lhs.Str? ==>
        (!StrHas(op) ==> r == Err(NoOperator(op, "<string>")))
        && (StrHas(op) ==> (r.Ok? <==> StrOp(op, a, b).Ok?) && (r.Ok? ==> r.value == Done(st, StrOp(op, a, b).value)))
    ensures var r := OperatorCall(op, lhs, a, b, st, stack, fuel);
      lhs.Inst? && lhs.id < |st.instances| ==>
        var def := st.instances[lhs.id].parent;
        (op !in def.operators ==> r == Err(NoOperator(op, def.name)))
        && (op in def.operators ==> r == StructOperator(def.operators[op], a, b, st, stack, fuel - 1))
    ensures var r := OperatorCall(op, lhs, a, b, st, stack, fuel);
      !(lhs.Num? || lhs.Bool? || lhs.Str? || lhs.Inst?) ==> r.Err? && r.error.HostError?
  {
  }
}
