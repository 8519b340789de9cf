// What call_pattern and call_function in src/interpreter.js promise: a pattern is looked up
// before its arguments are evaluated, a host pattern runs its host function and any other runs
// by call_raw on the caller's stack; a called value must be a FUNCTION, checked before its
// arguments run.

module Calls {

  import opened Errors
  import opened Syntax
  import opened Values
  import opened Contexts
  import opened Interpreter
  import K = Kinds

  /**
   * `name(args)`: an error where no frame of the scope defines the pattern, whatever the
   * arguments; otherwise the arguments' error, or the pattern run on the arguments' values in the
   * state they leave: by its host function when it has one, by call_raw with no instance otherwise.
   */
  lemma PatternCallDispatch(name: string, argsI: Instr, pos: Pos, st: State, stack: Stack, fuel: nat)
    requires fuel >= 1
    ensures var r := CallPattern(name, argsI, pos, st, stack, fuel);
      var p := FindPattern(st, stack, name);
      var a := Exec(argsI, st, stack, fuel - 1);
      (p == NotFound ==> r == Err(RuntimeError("Pattern not found: " + name, pos)))
      && (p != NotFound && a.Err? ==> r == Err(a.error))
      && (p != NotFound && a.Ok? && a.value.v.Arr? ==>
            r == if p.Prim? && HasExecute(p.builtin) then CallBuiltin(p.builtin, a.value.v.items, a.value.st, stack, pos, fuel - 1)
                 else CallRaw(p, a.value.v.items, a.value.st, stack, pos, Null, fuel - 1))
  {
  }

  /**
   * `f(args)`: the callee (a one-element tuple unwrapped) is evaluated first; an absent callee is a
   * host error and any value that is not a FUNCTION is refused before the arguments run; a
   * FUNCTION runs by call_raw on the caller's stack with the arguments' values.
   */
  lemma FunctionCallDispatch(fnI: Instr, argsI: Instr, pos: Pos, st: State, stack: Stack, fuel: nat, d: Done)
    requires fuel >= 1 && Exec(fnI, st, stack, fuel - 1) == Ok(d)
    ensures var r := CallFunction(fnI, argsI, pos, st, stack, fuel);
      var f := Collapse(d.v);
      (f.Undefined? || f.Null? ==> r.Err? && r.error.HostError?)
      && (!f.Undefined? && !f.Null? && !f.Fn? ==> r == Err(RuntimeError("Left-hand-side call value is not a function", pos)))
    ensures var r := CallFunction(fnI, argsI, pos, st, stack, fuel);
      var f := Collapse(d.v);
      var a := Exec(argsI, d.st, stack, fuel - 1);
      f.Fn? ==>
        (a.Err? ==> r == Err(a.error))
        && (a.Ok? && a.value.v.Arr? ==> r == CallRaw(f, a.value.v.items, a.value.st, stack, pos, Null, fuel - 1))
  {
    var f := Collapse(d.v);
    assert HasKind(f, K.Function) <==> f.Fn?;
  }
}
