// The loops of src/interpreter.js and src/prelude.js written as the source writes them, each
// proved to compute what the evaluator's recursive definition of it computes: the instruction loop
// of `interpreter`, the TUPLE executor, the stack machine of `execute_expression`, the field loop
// of the StructInstance constructor, and the loops of `#for` and `#while`.

module Executors {

  import opened Errors
  import opened Assoc
  import opened Syntax
  import opened Values
  import opened Contexts
  import opened Blocks
  import opened Prelude
  import opened Interpreter
  import K = Kinds

  /** `for (n = 0; n < branch.instructions.length; n++) last_context.last_value = interprete_instruction(...)`. */
  method RunInstructions(body: seq<Instr>, st0: State, stack: Stack, top: nat, fuel: nat) returns (r: Result<State>)
    ensures r == RunFrom(body, 0, st0, stack, top, fuel)
  {
    var st := st0;
    for n := 0 to |body|
      invariant RunFrom(body, 0, st0, stack, top, fuel) == RunFrom(body, n, st, stack, top, fuel)
    {
      if fuel == 0 {
        return Err(Exhausted);
      }
      var result := Exec(body[n], st, stack, fuel - 1);
      if result.Err? {
        return Err(result.error);
      }
      st := WriteLast(result.value.st, top, result.value.v);
    }
    return Ok(st);
  }

  /** The TUPLE executor: `n_element` counts the markers, every other entry fills slot `n_element`. */
  method TupleElements(body: seq<Instr>, st0: State, stack: Stack, fuel: nat) returns (r: Result<(State, seq<Value>)>)
    ensures r == FillFrom(body, 0, [], st0, stack, fuel)
  {
    var st := st0;
    var elements: seq<Value> := [];
    var nElement := 0;
    for k := 0 to |body|
      invariant nElement == SlotOf(body, k)
      invariant FillFrom(body, 0, [], st0, stack, fuel) == FillFrom(body, k, elements, st, stack, fuel)
    {
      if IsMarker(body[k]) {
        nElement := nElement + 1;
      } else {
        if fuel == 0 {
          return Err(Exhausted);
        }
        var result := Exec(body[k], st, stack, fuel - 1);
        if result.Err? {
          return Err(result.error);
        }
        elements := SetSlot(elements, nElement, result.value.v);
        st := result.value.st;
      }
    }
    return Ok((st, elements));
  }

  /**
   * `execute_expression`'s loop: operand steps push, operator steps pop their operands and push
   * the (unwrapped) result of the table entry.
   */
  method ExecuteSteps(steps: seq<Step>, st0: State, stack: Stack, fuel: nat) returns (r: Result<(State, seq<Value>)>)
    ensures r == EvalSteps(steps, 0, [], st0, stack, fuel)
  {
    var st := st0;
    var vals: seq<Value> := [];
    for k := 0 to |steps|
      invariant EvalSteps(steps, 0, [], st0, stack, fuel) == EvalSteps(steps, k, vals, st, stack, fuel)
    {
      if fuel == 0 {
        return Err(Exhausted);
      }
      match steps[k] {
        case Operand(i) =>
          var pushed := PushOperand(i, vals, st, stack, fuel - 1);
          if pushed.Err? {
            return Err(pushed.error);
          }
          st, vals := pushed.value.0, pushed.value.1;
        case Apply(op) =>
          var outcome := ApplyOp(op, vals, st, stack, fuel - 1);
          if outcome.Err? {
            return Err(outcome.error);
          }
          st, vals := outcome.value.0, outcome.value.1;
      }
    }
    return Ok((st, vals));
  }

  /** The field loop of the StructInstance constructor. */
  method InitialiseFields(fields: Entries<Field>, st0: State, fuel: nat) returns (r: Result<(State, Entries<Value>)>)
    ensures r == InitFields(fields, 0, [], st0, fuel)
  {
    var st := st0;
    var symbols: Entries<Value> := [];
    for k := 0 to |fields|
      invariant InitFields(fields, 0, [], st0, fuel) == InitFields(fields, k, symbols, st, fuel)
    {
      var (name, field) := fields[k];
      if field.default.None? {
        symbols := Put(symbols, name, Null);
      } else {
        if fuel == 0 {
          return Err(Exhausted);
        }
        var (st1, fid) := Alloc(st, EmptyFrame);
        var result := Exec(field.default.value, st1, [PreludeId, fid], fuel - 1);
        if result.Err? {
          return Err(result.error);
        }
        symbols := Put(symbols, name, result.value.v);
        st := result.value.st;
      }
    }
    return Ok((st, symbols));
  }

  /** The loop of `#for`: `for (let x = from; x < to; x += step)`, every turn spending fuel. */
  method ForLoopMethod(from: Value, to: Value, step: Value, f: Value, st0: State, stack: Stack, pos: Pos, fuel0: nat)
    returns (r: Result<Done>)
    ensures r == ForLoop(from, to, step, f, Null, st0, stack, pos, fuel0)
  {
    var x, lastValue, st, fuel := from, Null, st0, fuel0;
    while true
      invariant ForLoop(from, to, step, f, Null, st0, stack, pos, fuel0) == ForLoop(x, to, step, f, lastValue, st, stack, pos, fuel)
      decreases fuel
    {
      if fuel == 0 {
        return Err(Exhausted);
      }
      if !x.Num? || !to.Num? {
        return Err(Unmodelled("#for over values that are not integers"));
      }
      if x.n >= to.n {
        return Ok(Done(st, lastValue));
      }
      var result := Invoke(f, [x], st, stack, pos, fuel - 1);
      if result.Err? {
        return Err(result.error);
      }
      if IsBreak(result.value.v) {
        return Ok(Done(result.value.st, Nth(result.value.v.items, 1)));
      }
      if !step.Num? {
        return Err(Unmodelled("#for step that is not an integer"));
      }
      x, lastValue, st, fuel := Num(x.n + step.n), result.value.v, result.value.st, fuel - 1;
    }
  }

  /** The loop of `#while`: `while (execute_condition()) { ... }`, every turn spending fuel. */
  method WhileLoopMethod(c: Value, l: Value, st0: State, stack: Stack, pos: Pos, fuel0: nat) returns (r: Result<Done>)
    ensures r == WhileLoop(c, l, Null, st0, stack, pos, fuel0)
  {
    var lastValue, st, fuel := Null, st0, fuel0;
    while true
      invariant WhileLoop(c, l, Null, st0, stack, pos, fuel0) == WhileLoop(c, l, lastValue, st, stack, pos, fuel)
      decreases fuel
    {
      if fuel == 0 {
        return Err(Exhausted);
      }
      var condition := CallRaw(c, [], st, stack, NoPos, Null, fuel - 1);
      if condition.Err? {
        return Err(condition.error);
      }
      if !Truthy(condition.value.v) {
        return Ok(Done(condition.value.st, lastValue));
      }
      var result := Invoke(l, [], condition.value.st, stack, pos, fuel - 1);
      if result.Err? {
        return Err(result.error);
      }
      if IsBreak(result.value.v) {
        return Ok(Done(result.value.st, if !Nth(result.value.v.items, 1).Null? then result.value.v else lastValue));
      }
      lastValue, st, fuel := result.value.v, result.value.st, fuel - 1;
    }
  }
}
