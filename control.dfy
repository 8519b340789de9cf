// What the control patterns of src/prelude.js promise, as the evaluator runs them: `#if` picks a
// branch, `#for` calls its function on every integer of the range in order and gives the last
// result, `#break(v)` makes the tuple `(__break; v)` that ends a loop, `#while` stops at a falsy
// condition, and `#error` always fails.

module Control {

  import opened Errors
  import opened Assoc
  import opened Syntax
  import opened Values
  import opened Contexts
  import opened Arguments
  import opened Blocks
  import opened Prelude
  import opened Interpreter
  import opened Scoping
  import K = Kinds

  // ----- #if -----

  /** With a truthy condition, `#if` calls a callable success branch with no arguments and returns any other. */
  lemma IfTrue(c: Value, s: Value, e: Value, st: State, stack: Stack, pos: Pos, fuel: nat)
    requires fuel >= 1 && Truthy(c) && Truthy(s)
    ensures IsCallable(s) ==> IfBuiltin(c, s, e, st, stack, pos, fuel) == Invoke(s, [], st, stack, pos, fuel - 1)
    ensures !IsCallable(s) ==> IfBuiltin(c, s, e, st, stack, pos, fuel) == Ok(Done(st, s))
  {
  }

  /**
   * With a falsy condition, `#if` gives null without an error branch, fails on a null one, returns
   * an error branch that is not callable, and calls a callable one that is not a host pattern. A
   * host pattern as the error branch makes the source call the falsy condition instead, which
   * fails.
   */
  lemma IfFalse(c: Value, s: Value, e: Value, st: State, stack: Stack, pos: Pos, fuel: nat)
    requires fuel >= 1 && !Truthy(c) && Truthy(s)
    ensures e.Undefined? ==> IfBuiltin(c, s, e, st, stack, pos, fuel) == Ok(Done(st, Null))
    ensures e.Null? ==> IfBuiltin(c, s, e, st, stack, pos, fuel) == Err(HostError("Cannot read properties of null (reading 'kind')"))
    ensures e.Prim? && HasExecute(e.builtin) ==> IfBuiltin(c, s, e, st, stack, pos, fuel) == Err(ExecuteOfFalsy(c))
    ensures !e.Undefined? && !e.Null? && !IsCallable(e) ==> IfBuiltin(c, s, e, st, stack, pos, fuel) == Ok(Done(st, e))
    ensures IsCallable(e) && !e.Prim? ==> IfBuiltin(c, s, e, st, stack, pos, fuel) == CallRaw(e, [], st, stack, NoPos, Null, fuel - 1)
  {
    ElseBranch(c, s, e, st, stack, pos, fuel);
  }

  /** The error-branch part of `#if`, taken under a falsy condition. */
  lemma ElseBranch(c: Value, s: Value, e: Value, st: State, stack: Stack, pos: Pos, fuel: nat)
    requires fuel >= 1 && !Truthy(c) && Truthy(s)
    ensures IfBuiltin(c, s, e, st, stack, pos, fuel)
      == if e.Undefined? then Ok(Done(st, Null))
         else if e.Null? then Err(HostError("Cannot read properties of null (reading 'kind')"))
         else if !IsCallable(e) then Ok(Done(st, e))
         else if e.Prim? && HasExecute(e.builtin) then Err(ExecuteOfFalsy(c))
         else CallRaw(e, [], st, stack, NoPos, Null, fuel - 1)
  {
  }

  /** A falsy success branch is rejected, whatever the condition, and nothing runs. */
  lemma IfNeedsBranch(c: Value, s: Value, e: Value, st: State, stack: Stack, pos: Pos, fuel: nat)
    requires fuel >= 1 && !Truthy(s)
    ensures var r := IfBuiltin(c, s, e, st, stack, pos, fuel);
      r.Err? && r.error.RuntimeError? && r.error.pos == pos
  {
  }

  // ----- #for -----

  /** `#for(from, to, fn)` steps by one; a last argument that is not a FUNCTION or a host pattern is refused. */
  lemma ForArguments(args: seq<Value>, st: State, stack: Stack, pos: Pos, fuel: nat)
    requires fuel >= 1 && |args| == 3
    ensures Truthy(args[2]) && IsCallable(args[2]) ==>
      ForBuiltin(args, st, stack, pos, fuel) == ForLoop(args[0], args[1], Num(1), args[2], Null, st, stack, pos, fuel - 1)
    ensures !IsCallable(args[2]) ==>
      ForBuiltin(args, st, stack, pos, fuel) == Err(RuntimeError("Last argument must be a function!", pos))
  {
  }

  /** A pattern the program defines is not callable by `#for`: only FUNCTION values and prelude patterns are. */
  lemma ForRejectsDefinedPattern(from: Value, to: Value, p: Instr, st: State, stack: Stack, pos: Pos, fuel: nat)
    requires fuel >= 1 && p.DefinePattern?
    ensures ForBuiltin([from, to, PatternValue(p)], st, stack, pos, fuel) == Err(RuntimeError("Last argument must be a function!", pos))
  {
    assert !IsCallable(PatternValue(p));
  }

  /**
   * The loop of `#for` over a function that leaves the state as it is and gives `g(n)`, never a
   * break, for each `n` of the range: it gives `g(to - 1)`, the result of the last turn, or the
   * previous result where the range is empty. It needs one unit of fuel per turn, beyond what
   * one call needs.
   */
  lemma {:induction false} ForRuns(f: Value, g: int -> Value, from: int, to: int, last: Value, st: State, stack: Stack,
                                   pos: Pos, fuel: nat, k: nat)
    requires from <= to && fuel > to - from + k
    requires forall n: int, fl: nat :: from <= n < to && fl >= k ==> Invoke(f, [Num(n)], st, stack, pos, fl) == Ok(Done(st, g(n)))
    requires forall n: int :: from <= n < to ==> !IsBreak(g(n))
    ensures ForLoop(Num(from), Num(to), Num(1), f, last, st, stack, pos, fuel) == Ok(Done(st, if from < to then g(to - 1) else last))
    decreases fuel
  {
    if from < to {
      assert Invoke(f, [Num(from)], st, stack, pos, fuel - 1) == Ok(Done(st, g(from)));
      ForRuns(f, g, from + 1, to, g(from), st, stack, pos, fuel - 1, k);
    }
  }

  /** An empty range runs nothing and gives null. */
  lemma ForEmpty(from: int, to: int, step: Value, f: Value, st: State, stack: Stack, pos: Pos, fuel: nat)
    requires fuel >= 1 && from >= to
    ensures ForLoop(Num(from), Num(to), step, f, Null, st, stack, pos, fuel) == Ok(Done(st, Null))
  {
  }

  /** A turn whose result is a break tuple ends the loop with the tuple's second element. */
  lemma ForStopsAtBreak(x: int, to: int, step: Value, f: Value, last: Value, st: State, stack: Stack, pos: Pos, fuel: nat, d: Done)
    requires fuel >= 1 && x < to && Invoke(f, [Num(x)], st, stack, pos, fuel - 1) == Ok(d) && IsBreak(d.v)
    ensures ForLoop(Num(x), Num(to), step, f, last, st, stack, pos, fuel) == Ok(Done(d.st, Nth(d.v.items, 1)))
  {
  }

  /** `#for(from, to, step, fn)`: four arguments carry a step; the last must be a FUNCTION or a host pattern. */
  lemma ForArgumentsWithStep(args: seq<Value>, st: State, stack: Stack, pos: Pos, fuel: nat)
    requires fuel >= 1 && |args| == 4
    ensures Truthy(args[3]) && IsCallable(args[3]) ==>
      ForBuiltin(args, st, stack, pos, fuel) == ForLoop(args[0], args[1], args[2], args[3], Null, st, stack, pos, fuel - 1)
    ensures !IsCallable(args[3]) ==>
      ForBuiltin(args, st, stack, pos, fuel) == Err(RuntimeError("Last argument must be a function!", pos))
  {
  }

  /** A positive step. */
  type Stride = s: int | s >= 1 witness 1

  /**
   * The turns of a counting loop from `x` below `to` by `s`, where turn `n` in state `st` gives
   * `h(n, st)`: the result and state of the last turn, or `last` and `st` where there is none.
   */
  function ForTurns(h: (int, State) -> Done, x: int, to: int, s: Stride, last: Value, st: State): Done
    decreases to - x
  {
    if x < to then ForTurns(h, x + s, to, s, h(x, st).v, h(x, st).st) else Done(st, last)
  }

  /**
   * The loop of `#for` with a positive step over a function whose turn `n` in any state gives
   * `h(n, st)`, never a break: it runs the turns `x, x + s, ...` below `to` in order, each in
   * the state the previous one left, and gives the last turn's result.
   */
  lemma {:induction false} ForSteps(f: Value, h: (int, State) -> Done, x: int, to: int, s: Stride, last: Value,
                                    st: State, stack: Stack, pos: Pos, fuel: nat, k: nat)
    requires fuel >= 1 && fuel > to - x + k
    requires forall n: int, st': State, fl: nat :: x <= n < to && fl >= k ==>
      Invoke(f, [Num(n)], st', stack, pos, fl) == Ok(h(n, st'))
    requires forall n: int, st': State :: x <= n < to ==> !IsBreak(h(n, st').v)
    ensures ForLoop(Num(x), Num(to), Num(s), f, last, st, stack, pos, fuel) == Ok(ForTurns(h, x, to, s, last, st))
    decreases fuel
  {
    if x < to {
      var d := h(x, st);
      assert Invoke(f, [Num(x)], st, stack, pos, fuel - 1) == Ok(d);
      assert !IsBreak(d.v);
      ForSteps(f, h, x + s, to, s, d.v, d.st, stack, pos, fuel - 1, k);
    }
  }

  /**
   * With a step that is not positive a non-empty range is never left: unless a turn breaks, the
   * loop gives no value, whatever fuel it has.
   */
  lemma {:induction false} ForNeverAdvances(x: int, to: int, s: int, f: Value, last: Value, st: State, stack: Stack,
                                            pos: Pos, fuel: nat)
    requires x < to && s <= 0
    requires forall n: int, st': State, fl: nat :: n <= x && Invoke(f, [Num(n)], st', stack, pos, fl).Ok? ==>
      !IsBreak(Invoke(f, [Num(n)], st', stack, pos, fl).value.v)
    ensures ForLoop(Num(x), Num(to), Num(s), f, last, st, stack, pos, fuel).Err?
    decreases fuel
  {
    if fuel > 0 {
      var d := Invoke(f, [Num(x)], st, stack, pos, fuel - 1);
      if d.Ok? {
        assert !IsBreak(d.value.v);
        ForNeverAdvances(x + s, to, s, f, d.value.v, d.value.st, stack, pos, fuel - 1);
      }
    }
  }

  // ----- #break -----

  /** The two frames `#break(v)` runs under: the one binding `__value`, then the block's own. */
  function BreakFrames(st: State, stack: Stack, v: Value): (r: (State, Stack))
    ensures |r.1| == |stack| + 2
  {
    var (st1, id1) := Alloc(st, EmptyFrame.(symbols := [("__value", v)]));
    var (st2, id2) := Alloc(st1, EmptyFrame);
    (st2, Tail(Tail(stack, id1), id2))
  }

  /** Under those frames `__value` is the argument and `__break` is whatever the caller sees. */
  lemma BreakLookups(st: State, stack: Stack, v: Value)
    ensures FindSymbol(BreakFrames(st, stack, v).0, BreakFrames(st, stack, v).1, "__value") == v
    ensures FindSymbol(BreakFrames(st, stack, v).0, BreakFrames(st, stack, v).1, "__break") == FindSymbol(st, stack, "__break")
  {
    var f1 := EmptyFrame.(symbols := [("__value", v)]);
    var (st1, id1) := Alloc(st, f1);
    var s1 := Tail(stack, id1);
    assert Keys(f1.symbols) == ["__value"];
    TopLookup(st1, s1, "__value");
    PushedLookup(st1, s1, EmptyFrame, "__value");
    PushedLookup(st, stack, f1, "__break");
    PushedLookup(st1, s1, EmptyFrame, "__break");
  }

  /** A bound symbol evaluates to its value and changes nothing. */
  lemma SymbolValue(name: string, p: Pos, st: State, stack: Stack, fuel: nat)
    requires fuel >= 1 && FindSymbol(st, stack, name) != NotFound
    ensures Exec(Symbol(name, p), st, stack, fuel) == Ok(Done(st, FindSymbol(st, stack, name)))
  {
  }

  /** The entries of `(__break; __value)` fill the two slots with the break symbol and the value. */
  lemma BreakSlots(st: State, stack: Stack, v: Value, f: nat)
    requires f >= 2 && v != NotFound
    requires FindSymbol(st, stack, "__break") == BreakSym && FindSymbol(st, stack, "__value") == v
    ensures FillFrom(BreakBody[0].body, 0, [], st, stack, f) == Ok((st, [BreakSym, v]))
  {
    var body := BreakBody[0].body;
    assert SlotOf(body, 0) == 0 && SlotOf(body, 2) == 1;
    assert SetSlot([], 0, BreakSym) == [BreakSym];
    assert SetSlot([BreakSym], 1, v) == [BreakSym, v];
    SymbolValue("__break", NoPos, st, stack, f - 1);
    SymbolValue("__value", NoPos, st, stack, f - 1);
    ElementStep(body, 0, [], BreakSym, st, stack, f);
    MarkerStep(body, 1, [BreakSym], st, stack, f);
    ElementStep(body, 2, [BreakSym], v, st, stack, f);
  }

  /** The tuple `(__break; __value)` evaluates to the break symbol and the value. */
  lemma BreakTupleValue(st: State, stack: Stack, v: Value, fuel: nat)
    requires fuel >= 3 && v != NotFound
    requires FindSymbol(st, stack, "__break") == BreakSym && FindSymbol(st, stack, "__value") == v
    ensures Exec(BreakBody[0], st, stack, fuel) == Ok(Done(st, Arr([BreakSym, v])))
  {
    BreakSlots(st, stack, v, fuel - 1);
    TupleValue(BreakBody[0].body, 2, NoPos, st, stack, fuel, st, [BreakSym, v]);
  }

  /** The body of `#break` run as a block gives the tuple. */
  lemma BreakBlockValue(st: State, stack: Stack, v: Value, fuel: nat)
    requires fuel >= 5 && v != NotFound
    requires FindSymbol(st, stack, "__break") == BreakSym
    ensures var (st1, id1) := Alloc(st, EmptyFrame.(symbols := [("__value", v)]));
      RunBlock(BreakBody, st1, Tail(stack, id1), fuel).Ok?
      && RunBlock(BreakBody, st1, Tail(stack, id1), fuel).value.v == Arr([BreakSym, v])
  {
    var (st1, id1) := Alloc(st, EmptyFrame.(symbols := [("__value", v)]));
    var (st2, s2) := BreakFrames(st, stack, v);
    BreakLookups(st, stack, v);
    assert Hoist(BreakBody) == Ok(EmptyFrame);
    BreakTupleValue(st2, s2, v, fuel - 2);
    var id2 := |st1.frames|;
    assert RunFrom(BreakBody, 1, WriteLast(st2, id2, Arr([BreakSym, v])), s2, id2, fuel - 1).Ok?;
  }

  /** The one argument of `#break` is bound to `__value`. */
  lemma BreakArgument(v: Value, lhs: Result<Value>, inst: Value, pos: Pos)
    ensures var params := [Param("__value", Positional)];
      Distribute(params, [v], lhs, inst, pos) == Ok([v]) && Bind(params, [v]) == [("__value", v)]
  {
    var params := [Param("__value", Positional)];
    assert DistributeUpTo(params, [v], lhs, inst, pos, 0) == Ok(([], 0));
    assert [] + [v] == [v];
    assert DistributeOne(params[0], [v], lhs, inst, pos, [], 0) == Ok(([v], 1));
    assert DistributeUpTo(params, [v], lhs, inst, pos, 1) == Ok(([v], 1));
    assert BindUpTo(params, [v], 0) == [];
    assert Put([], "__value", v) == [("__value", v)];
  }

  /** call_raw binds the distributed values in a new frame over the caller's stack and runs the body there. */
  lemma RawCallRunsBody(f: Value, args: seq<Value>, st: State, stack: Stack, pos: Pos, inst: Value, fuel: nat,
                        params: seq<Param>, vals: seq<Value>, body: seq<Instr>)
    requires fuel >= 1 && ParamsOf(f) == Ok(params) && BodyOf(f) == Ok(body)
    requires Distribute(params, args, TopLast(st, stack), inst, pos) == Ok(vals)
    ensures var (st1, id) := Alloc(st, EmptyFrame.(symbols := Bind(params, vals)));
      CallRaw(f, args, st, stack, pos, inst, fuel) == RunBlock(body, st1, Tail(stack, id), fuel - 1)
  {
  }

  /** `#break(v)`, run as the ordinary pattern it is, gives `(__break; v)` where `__break` is not shadowed. */
  lemma BreakCall(v: Value, st: State, stack: Stack, pos: Pos, inst: Value, fuel: nat)
    requires fuel >= 6 && v != NotFound && FindSymbol(st, stack, "__break") == BreakSym
    ensures var r := CallRaw(Prim(Break), [v], st, stack, pos, inst, fuel);
      r.Ok? && IsBreak(r.value.v) && r.value.v.items == [BreakSym, v]
  {
    var params := [Param("__value", Positional)];
    BreakArgument(v, TopLast(st, stack), inst, pos);
    RawCallRunsBody(Prim(Break), [v], st, stack, pos, inst, fuel, params, [v], BreakBody);
    BreakBlockValue(st, stack, v, fuel - 1);
  }

  /** The tuple `(__break; __value)` fails where `__value` is NOT_FOUND, once `__break` is read. */
  lemma BreakTupleNotFound(st: State, stack: Stack, fuel: nat)
    requires fuel >= 3
    requires FindSymbol(st, stack, "__break") == BreakSym && FindSymbol(st, stack, "__value") == NotFound
    ensures Exec(BreakBody[0], st, stack, fuel) == Err(RuntimeError("Undefined variable: __value", NoPos))
  {
    var body := BreakBody[0].body;
    assert SlotOf(body, 0) == 0 && SetSlot([], 0, BreakSym) == [BreakSym];
    SymbolValue("__break", NoPos, st, stack, fuel - 2);
    ElementStep(body, 0, [], BreakSym, st, stack, fuel - 1);
    MarkerStep(body, 1, [BreakSym], st, stack, fuel - 1);
    assert body[2] == Symbol("__value", NoPos);
    assert "Undefined variable: " + "__value" == "Undefined variable: __value";
  }

  /** The body of `#break`, run as a block over `__value` bound to NOT_FOUND, fails the same way. */
  lemma BreakBlockNotFound(st: State, stack: Stack, fuel: nat)
    requires fuel >= 5 && FindSymbol(st, stack, "__break") == BreakSym
    ensures var (st1, id1) := Alloc(st, EmptyFrame.(symbols := [("__value", NotFound)]));
      RunBlock(BreakBody, st1, Tail(stack, id1), fuel) == Err(RuntimeError("Undefined variable: __value", NoPos))
  {
    var (st1, id1) := Alloc(st, EmptyFrame.(symbols := [("__value", NotFound)]));
    var (st2, s2) := BreakFrames(st, stack, NotFound);
    BreakLookups(st, stack, NotFound);
    assert Hoist(BreakBody) == Ok(EmptyFrame);
    BreakTupleNotFound(st2, s2, fuel - 2);
  }

  /**
   * `#break(v)` where `v` is NOT_FOUND, which a pattern missing from the scope evaluates to and a
   * variable may hold: the body's `__value` lookup reads NOT_FOUND as unbound, so the call fails.
   */
  lemma BreakNotFound(st: State, stack: Stack, pos: Pos, inst: Value, fuel: nat)
    requires fuel >= 6 && FindSymbol(st, stack, "__break") == BreakSym
    ensures CallRaw(Prim(Break), [NotFound], st, stack, pos, inst, fuel) == Err(RuntimeError("Undefined variable: __value", NoPos))
  {
    var params := [Param("__value", Positional)];
    BreakArgument(NotFound, TopLast(st, stack), inst, pos);
    RawCallRunsBody(Prim(Break), [NotFound], st, stack, pos, inst, fuel, params, [NotFound], BreakBody);
    BreakBlockNotFound(st, stack, fuel - 1);
  }

  // ----- #while and #error -----

  /** `#while` stops as soon as its condition gives a falsy value, with the previous turn's result. */
  lemma WhileStops(c: Value, l: Value, last: Value, st: State, stack: Stack, pos: Pos, fuel: nat, d: Done)
    requires fuel >= 1 && CallRaw(c, [], st, stack, NoPos, Null, fuel - 1) == Ok(d) && !Truthy(d.v)
    ensures WhileLoop(c, l, last, st, stack, pos, fuel) == Ok(Done(d.st, last))
  {
  }

  /** A break tuple ends `#while`, giving the tuple itself unless its value is null. */
  lemma WhileStopsAtBreak(c: Value, l: Value, last: Value, st: State, stack: Stack, pos: Pos, fuel: nat, cd: Done, d: Done)
    requires fuel >= 1 && CallRaw(c, [], st, stack, NoPos, Null, fuel - 1) == Ok(cd) && Truthy(cd.v)
    requires Invoke(l, [], cd.st, stack, pos, fuel - 1) == Ok(d) && IsBreak(d.v)
    ensures WhileLoop(c, l, last, st, stack, pos, fuel) == Ok(Done(d.st, if Nth(d.v.items, 1).Null? then last else d.v))
  {
  }

  /**
   * The argument checks of `#while`, in the source's order: a condition that is falsy or not
   * callable is refused; an absent or null loop fails on reading its `kind`; any other falsy
   * loop is refused; a host pattern as the condition fails when the loop first calls it, the
   * source naming an undeclared `fn`; anything else runs the loop from a null last value.
   */
  lemma WhileArguments(args: seq<Value>, st: State, stack: Stack, pos: Pos, fuel: nat)
    requires fuel >= 2
    ensures var r := CallBuiltin(While, args, st, stack, pos, fuel);
      var c, l := Nth(args, 0), Nth(args, 1);
      (!Truthy(c) || !IsCallable(c) ==>
         r == Err(RuntimeError("Invalid argument for #while: first argument should be a FUNCTION or PATTERN", pos)))
      && (Truthy(c) && IsCallable(c) ==>
           (l.Undefined? ==> r == Err(HostError("Cannot read properties of undefined (reading 'kind')")))
           && (l.Null? ==> r == Err(HostError("Cannot read properties of null (reading 'kind')")))
           && (!Truthy(l) && !l.Undefined? && !l.Null? ==>
                 r == Err(RuntimeError("Invalid argument for #while: second argument should be a FUNCTION, PATTERN or absent", pos)))
           && (Truthy(l) && c.Prim? && HasExecute(c.builtin) ==> r == Err(HostError("fn is not defined")))
           && (Truthy(l) && !(c.Prim? && HasExecute(c.builtin)) ==> r == WhileLoop(c, l, Null, st, stack, pos, fuel - 2)))
  {
  }

  /** With one argument, `#while` fails on reading the absent loop's `kind`, even though the loop is declared optional. */
  lemma WhileNeedsLoop(c: Value, st: State, stack: Stack, pos: Pos, fuel: nat)
    requires fuel >= 2 && Truthy(c) && IsCallable(c)
    ensures CallBuiltin(While, [c], st, stack, pos, fuel) == Err(HostError("Cannot read properties of undefined (reading 'kind')"))
  {
    WhileArguments([c], st, stack, pos, fuel);
  }

  /** `#error` never returns: it fails with "Runtime Error", followed by its message where it has one. */
  lemma ErrorAlwaysFails(args: seq<Value>, st: State, stack: Stack, pos: Pos, fuel: nat)
    requires fuel >= 1
    ensures var r := CallBuiltin(Raise, args, st, stack, pos, fuel);
      r.Err?
      && (!Truthy(Nth(args, 0)) ==> r.error == RuntimeError("Runtime Error", pos))
      && (Truthy(Nth(args, 0)) && ToString(Nth(args, 0)).Ok? ==>
            r.error == RuntimeError("Runtime Error: " + ToString(Nth(args, 0)).value, pos))
  {
  }
}
