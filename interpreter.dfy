// The tree-walking evaluator of src/interpreter.js, with the host functions of the control
// patterns of src/prelude.js and the struct operators of src/struct.js that call back into it.
//
// Every executor is a function from the state (frames, instances, output) and the context stack
// to the state it leaves and the value it returns. An exception aborts the whole run, so the first
// error is the result. Host recursion is bounded by `fuel`: every executor spends one unit, and
// running out is an Unmodelled outcome, never a value.

module Interpreter {

  import opened Errors
  import opened Assoc
  import opened Syntax
  import opened Values
  import opened Operators
  import opened Structs
  import opened Contexts
  import opened Arguments
  import opened Blocks
  import opened Prelude
  import K = Kinds

  /** An evaluation that completed: the state it left and the value it returned. */
  datatype Done = Done(st: State, v: Value)

  /** The outcome of running out of fuel. */
  const Exhausted := Unmodelled("evaluation fuel")

  /**
   * What `member_access` throws for a `.` the accessor pass left in place: that entry has no
   * `parent`, and the executor reads `instruction.parent.kind` first.
   */
  const NoParent := HostError("Cannot read properties of undefined (reading 'kind')")

  /**
   * What `condition._execute(...)` throws in `#if`'s error branch, the condition being falsy: a
   * null or undefined condition has no properties, and any other has no `_execute`.
   */
  function ExecuteOfFalsy(c: Value): (r: Error)
    ensures r.HostError?
    ensures c.Null? <==> r == HostError("Cannot read properties of null (reading '_execute')")
    ensures c.Undefined? <==> r == HostError("Cannot read properties of undefined (reading '_execute')")
  {
    if c.Null? then HostError("Cannot read properties of null (reading '_execute')")
    else if c.Undefined? then HostError("Cannot read properties of undefined (reading '_execute')")
    else HostError("condition._execute is not a function")
  }

  // ----- Small pieces the executors share -----

  /** `x.name` of an instruction: the names the syntax carries, and `undefined` (as a key, "undefined") for the rest. */
  function NameProp(i: Instr): string
  {
    match i
    case Symbol(name, _) => name
    case Pattern(name, _) => name
    case Typename(name, _) => name
    case DefinePattern(name, _, _, _, _) => name
    case DeclareSymbol(name, _, _) => name
    case Struct(name, _, _, _) => name
    case StructInit(name, _, _, _) => name
    case _ => "undefined"
  }

  /** `pattern.is_method` of a struct's method. */
  predicate IsMethodDef(p: Instr)
  {
    p.DefinePattern? && p.isMethod
  }

  /** The evaluated argument tuple of a call, as the array it is. */
  function ArgList(v: Value): Result<seq<Value>>
  {
    if v.Arr? then Ok(v.items) else Err(Unmodelled("argument list that is not an array"))
  }

  /** `context_stack[context_stack.length - 1].last_value`, read for an LHS parameter. */
  function TopLast(st: State, stack: Stack): Result<Value>
  {
    if |stack| == 0 then Err(HostError("Cannot read properties of undefined (reading 'last_value')"))
    else Ok(FrameAt(st, stack[|stack| - 1]).last)
  }

  /** The frame of `to_context` (and of STRUCT_INIT): `self` bound to a copy of the instance. */
  function SelfFrame(id: nat): Frame
  {
    EmptyFrame.(symbols := [("self", Inst(id, true))])
  }

  /** The error of an operator missing from the table chosen for the left operand. */
  function NoOperator(op: K.Op, typeName: string): Error
  {
    RuntimeError("No (or invalid) operator '" + K.OpName(op) + "' defined for " + typeName, NoPos)
  }

  /** The message of `#error`. */
  function RaiseMessage(v: Value): Result<string>
  {
    if Truthy(v) then
      var s :- ToString(v);
      Ok("Runtime Error: " + s)
    else Ok("Runtime Error")
  }

  // ----- Blocks and instructions -----

  /**
   * `interpreter(branch, stack)`: a fresh frame on top of the stack, holding the block's patterns
   * and structs, then every instruction in order, each result stored as the frame's `last_value`,
   * which is the result.
   */
  function RunBlock(body: seq<Instr>, st: State, stack: Stack, fuel: nat): (r: Result<Done>)
    ensures r.Ok? ==> Grows(st, r.value.st)
    ensures r.Ok? && body == [] ==> r.value.v == Null
    decreases fuel, 0
  {
    if fuel == 0 then Err(Exhausted)
    else
      var f :- Hoist(body);
      HoistFinds(body, |body|, "");
      var (st1, id) := Alloc(st, f);
      var st2 :- RunFrom(body, 0, st1, Tail(stack, id), id, fuel - 1);
      Ok(Done(st2, FrameAt(st2, id).last))
  }

  /** The instruction loop of `interpreter`, from entry `k` on; `top` is the block's frame. */
  function RunFrom(body: seq<Instr>, k: nat, st: State, stack: Stack, top: nat, fuel: nat): (r: Result<State>)
    requires k <= |body|
    ensures r.Ok? ==> Grows(st, r.value)
    ensures r.Ok? && k == |body| ==> r.value == st
    decreases fuel, |body| - k
  {
    if k == |body| then Ok(st)
    else if fuel == 0 then Err(Exhausted)
    else
      var d :- Exec(body[k], st, stack, fuel - 1);
      RunFrom(body, k + 1, WriteLast(d.st, top, d.v), stack, top, fuel)
  }

  /**
   * `interprete_instruction`: the executor of the instruction's kind; kinds without one give
   * undefined. A bare `.` has MEMBER_ACCESSOR's executor, which fails on its missing parent.
   */
  function Exec(i: Instr, st: State, stack: Stack, fuel: nat): (r: Result<Done>)
    ensures r.Ok? ==> Grows(st, r.value.st)
    decreases fuel, 0
  {
    if fuel == 0 then Err(Exhausted)
    else
      match i
      case Block(body, _) => RunBlock(body, st, stack, fuel - 1)
      case Number(word, _) =>
        var v :- NumberValue(word);
        Ok(Done(st, v))
      case String(text, _) => Ok(Done(st, Str(text)))
      case Boolean(b, _) => Ok(Done(st, Bool(b)))
      case Function(params, code, isMethod) => Ok(Done(st, Fn(params, code, isMethod)))
      case Pattern(name, _) => Ok(Done(st, FindPattern(st, stack, name)))
      case Symbol(name, pos) =>
        var v := FindSymbol(st, stack, name);
        if v == NotFound then Err(RuntimeError("Undefined variable: " + name, pos)) else Ok(Done(st, v))
      case Tuple(body, _, _) =>
        var r :- FillFrom(body, 0, [], st, stack, fuel - 1);
        Ok(Done(r.0, Arr(r.1)))
      case PatternCall(name, args, pos) => CallPattern(name, args, pos, st, stack, fuel - 1)
      case FunctionCall(fn, args, pos) => CallFunction(fn, args, pos, st, stack, fuel - 1)
      case DefineSymbol(name, right, pos) => DefineSymbolExec(name, right, pos, st, stack, fuel - 1)
      case DeclareSymbol(name, init, pos) => DeclareSymbolExec(name, init, pos, st, stack, fuel - 1)
      case StructInit(name, ctor, args, pos) => StructInitExec(name, ctor, args, pos, st, stack, fuel - 1)
      case DefineMember(owner, key, right, pos) => DefineMemberExec(owner, key, right, pos, st, stack, fuel - 1)
      case MemberAccessor(parent, member, pos) => MemberAccess(parent, member, pos, st, stack, fuel - 1)
      case Expression(steps, _, _) =>
        var r :- EvalSteps(steps, 0, [], st, stack, fuel - 1);
        Ok(Done(r.0, if |r.1| > 0 then r.1[0] else Undefined))
      case Keyword(k, _) => if k == K.MemberAccessor then Err(NoParent) else Ok(Done(st, Undefined))
      case _ => Ok(Done(st, Undefined))
  }

  /**
   * The TUPLE executor from entry `k` on: each element goes to the slot counted by the markers
   * before it, a later element of a slot replacing an earlier one.
   */
  function FillFrom(body: seq<Instr>, k: nat, elems: seq<Value>, st: State, stack: Stack, fuel: nat)
    : (r: Result<(State, seq<Value>)>)
    requires k <= |body|
    ensures r.Ok? ==> Grows(st, r.value.0)
    ensures r.Ok? && |elems| == Width(body, k) ==> |r.value.1| == Width(body, |body|)
    decreases fuel, |body| - k
  {
    if k == |body| then Ok((st, elems))
    else if IsMarker(body[k]) then FillFrom(body, k + 1, elems, st, stack, fuel)
    else if fuel == 0 then Err(Exhausted)
    else
      var d :- Exec(body[k], st, stack, fuel - 1);
      WidthStep(body, k, elems, d.v);
      FillFrom(body, k + 1, SetSlot(elems, SlotOf(body, k), d.v), d.st, stack, fuel)
  }

  // ----- Calls -----

  /** `call_pattern`: a host pattern runs its host function, any other is run by call_raw. */
  function CallPattern(name: string, argsI: Instr, pos: Pos, st: State, stack: Stack, fuel: nat): (r: Result<Done>)
    ensures r.Ok? ==> Grows(st, r.value.st)
    decreases fuel, 0
  {
    if fuel == 0 then Err(Exhausted)
    else
      var p := FindPattern(st, stack, name);
      if p == NotFound then Err(RuntimeError("Pattern not found: " + name, pos))
      else
        var a :- Exec(argsI, st, stack, fuel - 1);
        var args :- ArgList(a.v);
        if p.Prim? && HasExecute(p.builtin) then CallBuiltin(p.builtin, args, a.st, stack, pos, fuel - 1)
        else CallRaw(p, args, a.st, stack, pos, Null, fuel - 1)
  }

  /** `call_function`: the callee, a one-element tuple unwrapped, must be a FUNCTION. */
  function CallFunction(fnI: Instr, argsI: Instr, pos: Pos, st: State, stack: Stack, fuel: nat): (r: Result<Done>)
    ensures r.Ok? ==> Grows(st, r.value.st)
    decreases fuel, 0
  {
    if fuel == 0 then Err(Exhausted)
    else
      var d :- Exec(fnI, st, stack, fuel - 1);
      var f := Collapse(d.v);
      if f.Undefined? || f.Null? then Err(HostError("Cannot read properties of undefined (reading 'kind')"))
      else if !HasKind(f, K.Function) then Err(RuntimeError("Left-hand-side call value is not a function", pos))
      else
        var a :- Exec(argsI, d.st, stack, fuel - 1);
        var args :- ArgList(a.v);
        CallRaw(f, args, a.st, stack, pos, Null, fuel - 1)
  }

  /**
   * `call_raw`: the arguments distributed over the callee's parameters and bound in a fresh
   * frame, pushed on the CALLER's stack (the FUNCTION executor captures no scope), under which
   * the callee's body runs as a block. `inst` is the `instance` option, null where none is given.
   */
  function CallRaw(f: Value, args: seq<Value>, st: State, stack: Stack, pos: Pos, inst: Value, fuel: nat)
    : (r: Result<Done>)
    ensures r.Ok? ==> Grows(st, r.value.st)
    decreases fuel, 0
  {
    if fuel == 0 then Err(Exhausted)
    else
      var params :- ParamsOf(f);
      var vals :- Distribute(params, args, TopLast(st, stack), inst, pos);
      var body :- BodyOf(f);
      var (st1, id) := Alloc(st, EmptyFrame.(symbols := Bind(params, vals)));
      RunBlock(body, st1, Tail(stack, id), fuel - 1)
  }

  /** How the control patterns run a callee: its host function if it has one, call_raw otherwise. */
  function Invoke(f: Value, args: seq<Value>, st: State, stack: Stack, pos: Pos, fuel: nat): (r: Result<Done>)
    ensures r.Ok? ==> Grows(st, r.value.st)
    decreases fuel, 0
  {
    if fuel == 0 then Err(Exhausted)
    else if f.Prim? && HasExecute(f.builtin) then CallBuiltin(f.builtin, args, st, stack, pos, fuel - 1)
    else CallRaw(f, args, st, stack, NoPos, Null, fuel - 1)
  }

  // ----- Host functions of the prelude -----

  /** `pattern._execute(args, context_stack, line, char)`. */
  function CallBuiltin(b: Builtin, args: seq<Value>, st: State, stack: Stack, pos: Pos, fuel: nat): (r: Result<Done>)
    ensures r.Ok? ==> Grows(st, r.value.st)
    decreases fuel, 0
  {
    if fuel == 0 then Err(Exhausted)
    else
      match b
      case PrintLn =>
        var s :- JoinWith(args, " ");
        Ok(Done(st.(out := st.out + s + "\n"), Undefined))
      case Print =>
        var s :- JoinWith(args, " ");
        Ok(Done(st.(out := st.out + s), Undefined))
      case If => IfBuiltin(Nth(args, 0), Nth(args, 1), Nth(args, 2), st, stack, pos, fuel - 1)
      case For => ForBuiltin(args, st, stack, pos, fuel - 1)
      case While => WhileBuiltin(Nth(args, 0), Nth(args, 1), st, stack, pos, fuel - 1)
      case Ident => Err(Unmodelled("'ident"))
      case Raise =>
        var msg :- RaiseMessage(Nth(args, 0));
        Err(RuntimeError(msg, pos))
      case Version => Err(HostError("pattern._execute is not a function"))
      case Break => Err(HostError("pattern._execute is not a function"))
  }

  /** `#if(condition, success, error)`. */
  function IfBuiltin(c: Value, s: Value, e: Value, st: State, stack: Stack, pos: Pos, fuel: nat): (r: Result<Done>)
    ensures r.Ok? ==> Grows(st, r.value.st)
    decreases fuel, 0
  {
    if fuel == 0 then Err(Exhausted)
    else if !Truthy(s) then
      var text :- ToString(s);
      Err(RuntimeError("Invalid first argument type, expected FUNCTION or PATTERN, got " + text + " (in undefined)", pos))
    else if Truthy(c) then
      if IsCallable(s) then Invoke(s, [], st, stack, pos, fuel - 1) else Ok(Done(st, s))
    else if e.Undefined? then Ok(Done(st, Null))
    else if e.Null? then Err(HostError("Cannot read properties of null (reading 'kind')"))
    else if IsCallable(e) then
      // the source calls `condition._execute` here, and the condition is falsy
      if e.Prim? && HasExecute(e.builtin) then Err(ExecuteOfFalsy(c))
      else CallRaw(e, [], st, stack, NoPos, Null, fuel - 1)
    else Ok(Done(st, e))
  }

  /** `#for(from, to, fn)` and `#for(from, to, step, fn)`. */
  function ForBuiltin(args: seq<Value>, st: State, stack: Stack, pos: Pos, fuel: nat): (r: Result<Done>)
    ensures r.Ok? ==> Grows(st, r.value.st)
    decreases fuel, 0
  {
    if fuel == 0 then Err(Exhausted)
    else
      var step := if |args| == 3 then Num(1) else Nth(args, 2);
      var f := if |args| == 3 then args[2] else Nth(args, 3);
      if !Truthy(f) || !IsCallable(f) then Err(RuntimeError("Last argument must be a function!", pos))
      else ForLoop(Nth(args, 0), Nth(args, 1), step, f, Null, st, stack, pos, fuel - 1)
  }

  /**
   * The loop of `#for` from `x` on, `last` being the previous result: it stops at `to`, or at a
   * result that is a `__break` tuple, whose second element it returns.
   */
  function ForLoop(x: Value, to: Value, step: Value, f: Value, last: Value, st: State, stack: Stack, pos: Pos, fuel: nat)
    : (r: Result<Done>)
    ensures r.Ok? ==> Grows(st, r.value.st)
    decreases fuel, 0
  {
    if fuel == 0 then Err(Exhausted)
    else if !x.Num? || !to.Num? then Err(Unmodelled("#for over values that are not integers"))
    else if x.n >= to.n then Ok(Done(st, last))
    else
      var d :- Invoke(f, [x], st, stack, pos, fuel - 1);
      if IsBreak(d.v) then Ok(Done(d.st, Nth(d.v.items, 1)))
      else if !step.Num? then Err(Unmodelled("#for step that is not an integer"))
      else ForLoop(Num(x.n + step.n), to, step, f, d.v, d.st, stack, pos, fuel - 1)
  }

  /** `#while(condition, loop)`. */
  function WhileBuiltin(c: Value, l: Value, st: State, stack: Stack, pos: Pos, fuel: nat): (r: Result<Done>)
    ensures r.Ok? ==> Grows(st, r.value.st)
    decreases fuel, 0
  {
    if fuel == 0 then Err(Exhausted)
    else if !Truthy(c) || !IsCallable(c) then
      Err(RuntimeError("Invalid argument for #while: first argument should be a FUNCTION or PATTERN", pos))
    else if l.Undefined? then Err(HostError("Cannot read properties of undefined (reading 'kind')"))
    else if l.Null? then Err(HostError("Cannot read properties of null (reading 'kind')"))
    else if !Truthy(l) then
      Err(RuntimeError("Invalid argument for #while: second argument should be a FUNCTION, PATTERN or absent", pos))
    else if c.Prim? && HasExecute(c.builtin) then Err(HostError("fn is not defined"))
    else WhileLoop(c, l, Null, st, stack, pos, fuel - 1)
  }

  /**
   * The loop of `#while`: while calling the condition gives a truthy value, run the loop body; a
   * `__break` tuple ends it, giving the tuple itself unless its value is null.
   */
  function WhileLoop(c: Value, l: Value, last: Value, st: State, stack: Stack, pos: Pos, fuel: nat): (r: Result<Done>)
    ensures r.Ok? ==> Grows(st, r.value.st)
    decreases fuel, 0
  {
    if fuel == 0 then Err(Exhausted)
    else
      var cd :- CallRaw(c, [], st, stack, NoPos, Null, fuel - 1);
      if !Truthy(cd.v) then Ok(Done(cd.st, last))
      else
        var d :- Invoke(l, [], cd.st, stack, pos, fuel - 1);
        if IsBreak(d.v) then Ok(Done(d.st, if !Nth(d.v.items, 1).Null? then d.v else last))
        else WhileLoop(c, l, d.v, d.st, stack, pos, fuel - 1)
  }

  // ----- Symbols -----

  /** DEFINE_SYMBOL: assign in the innermost frame owning the name, returning the old value. */
  function DefineSymbolExec(name: string, right: Instr, pos: Pos, st: State, stack: Stack, fuel: nat): (r: Result<Done>)
    ensures r.Ok? ==> Grows(st, r.value.st)
    decreases fuel, 0
  {
    if fuel == 0 then Err(Exhausted)
    else
      match Owner(st, stack, Symbols, name)
      case None => Err(RuntimeError("No definition of " + name + " found", pos))
      case Some(k) =>
        var d :- Exec(right, st, stack, fuel - 1);
        Ok(Done(WriteSymbol(d.st, stack[k], name, d.v), FindSymbol(st, stack, name)))
  }

  /** DECLARE_SYMBOL: a new binding in the innermost frame, null without an initialiser. */
  function DeclareSymbolExec(name: string, init: Option<Instr>, pos: Pos, st: State, stack: Stack, fuel: nat)
    : (r: Result<Done>)
    ensures r.Ok? ==> Grows(st, r.value.st)
    decreases fuel, 0
  {
    if fuel == 0 then Err(Exhausted)
    else if |stack| == 0 then Err(HostError("Cannot read properties of undefined (reading 'symbols')"))
    else
      var top := stack[|stack| - 1];
      if Has(FrameAt(st, top).symbols, name) then Err(RuntimeError("Duplicate declaration of " + name, pos))
      else
        var d :- (match init
          case None => Ok(Done(st, Null))
          case Some(e) => Exec(e, st, stack, fuel - 1));
        Ok(Done(WriteSymbol(d.st, top, name, d.v), Undefined))
  }

  // ----- Structs -----

  /**
   * STRUCT_INIT: a new instance, then the constructor run over a frame binding `self` to a copy
   * of it; the instance is the result, whatever the constructor returns.
   */
  function StructInitExec(name: string, ctor: string, argsI: Instr, pos: Pos, st: State, stack: Stack, fuel: nat)
    : (r: Result<Done>)
    ensures r.Ok? ==> Grows(st, r.value.st)
    ensures r.Ok? ==> (FindStruct(st, stack, name).Some?
      && r.value.v.Inst? && !r.value.v.copy
      && |st.instances| <= r.value.v.id < |r.value.st.instances|
      && r.value.st.instances[r.value.v.id].parent == FindStruct(st, stack, name).value
      && forall x :: Has(r.value.st.instances[r.value.v.id].fields, x) <==> Has(FindStruct(st, stack, name).value.fields, x))
    decreases fuel, 0
  {
    if fuel == 0 then Err(Exhausted)
    else
      match FindStruct(st, stack, name)
      case None => Err(RuntimeError("No struct named " + name + " found.", pos))
      case Some(def) =>
        match Get(def.methods, ctor)
        case None => Err(RuntimeError("No pattern named undefined found in " + name + ".", pos))
        case Some(p) =>
          if IsMethodDef(p) then Err(RuntimeError("Pattern undefined is not a constructor.", pos))
          else
            var ni :- NewInstance(def, st, fuel - 1);
            var a :- Exec(argsI, ni.0, stack, fuel - 1);
            var args :- ArgList(a.v);
            var (st2, sid) := Alloc(a.st, SelfFrame(ni.1));
            var c :- CallRaw(PatternValue(p), args, st2, Tail(stack, sid), pos, Null, fuel - 1);
            Ok(Done(c.st, Inst(ni.1, false)))
  }

  /** `struct.instance()`: the fields initialised in order, then the instance allocated. */
  function NewInstance(def: StructDef, st: State, fuel: nat): (r: Result<(State, nat)>)
    ensures r.Ok? ==> (Grows(st, r.value.0)
      && |st.instances| <= r.value.1 < |r.value.0.instances|
      && r.value.0.instances[r.value.1].parent == def
      && forall x :: Has(r.value.0.instances[r.value.1].fields, x) <==> Has(def.fields, x))
    decreases fuel, 0
  {
    if fuel == 0 then Err(Exhausted)
    else
      var init :- InitFields(def.fields, 0, [], st, fuel - 1);
      var (st1, id) := AllocInstance(init.0, Instance(def, init.1));
      Ok((st1, id))
  }

  /**
   * The field loop of the StructInstance constructor from field `k` on: a field without a default
   * is null, any other is its default evaluated over the prelude and a fresh frame.
   */
  function InitFields(fields: Entries<Field>, k: nat, acc: Entries<Value>, st: State, fuel: nat)
    : (r: Result<(State, Entries<Value>)>)
    requires k <= |fields|
    ensures r.Ok? ==> Grows(st, r.value.0)
    ensures r.Ok? ==> FieldsCovered(r.value.1, acc, fields, k)
    decreases fuel, |fields| - k
  {
    if k == |fields| then Ok((st, acc))
    else
      var name := fields[k].0;
      match fields[k].1.default
      case None =>
        var r := InitFields(fields, k + 1, Put(acc, name, Null), st, fuel);
        if r.Ok? then CoveredStep(r.value.1, acc, fields, k, Null); r else r
      case Some(e) =>
        if fuel == 0 then Err(Exhausted)
        else
          var (st1, fid) := Alloc(st, EmptyFrame);
          var d :- Exec(e, st1, [PreludeId, fid], fuel - 1);
          var r := InitFields(fields, k + 1, Put(acc, name, d.v), d.st, fuel);
          if r.Ok? then CoveredStep(r.value.1, acc, fields, k, d.v); r else r
  }

  /** The keys of `out` are those of `acc` and the names of `fields` from index `k` on. */
  ghost predicate FieldsCovered(out: Entries<Value>, acc: Entries<Value>, fields: Entries<Field>, k: nat)
  {
    forall x :: Has(out, x) <==> (Has(acc, x) || exists j :: k <= j < |fields| && fields[j].0 == x)
  }

  lemma CoveredStep(out: Entries<Value>, acc: Entries<Value>, fields: Entries<Field>, k: nat, v: Value)
    requires k < |fields|
    requires FieldsCovered(out, Put(acc, fields[k].0, v), fields, k + 1)
    ensures FieldsCovered(out, acc, fields, k)
  {
    PutKeys(acc, fields[k].0, v);
  }

  /** DEFINE_MEMBER: assign an existing field of the instance a symbol names, returning the old value. */
  function DefineMemberExec(owner: Option<Instr>, key: Option<Instr>, right: Instr, pos: Pos, st: State, stack: Stack, fuel: nat)
    : (r: Result<Done>)
    ensures r.Ok? ==> Grows(st, r.value.st)
    decreases fuel, 0
  {
    if fuel == 0 then Err(Exhausted)
    else if owner.None? then Err(HostError("Cannot read properties of undefined (reading 'name')"))
    else
      var pname := NameProp(owner.value);
      var v := FindSymbol(st, stack, pname);
      if !Truthy(v) then Err(RuntimeError("Variable not found: " + pname, PosOf(owner.value)))
      else if !v.Inst? then Err(HostError("parent is not defined"))
      else if key.None? then Err(HostError("Cannot read properties of undefined (reading 'name')"))
      else
        var mname := NameProp(key.value);
        var rec :- InstanceAt(st, v.id);
        match Get(rec.fields, mname)
        case None => Err(RuntimeError("Variable not found in " + pname, PosOf(key.value)))
        case Some(prev) =>
          GetHas(rec.fields, mname);
          var d :- Exec(right, st, stack, fuel - 1);
          Ok(Done(WriteField(d.st, v.id, mname, d.v), prev))
  }

  /**
   * MEMBER_ACCESSOR: the parent evaluated (a one-element tuple unwrapped) must be an instance;
   * a symbol member reads a field, a pattern-call member calls a method by call_raw on the
   * caller's stack with the instance as its `instance` option, any other member gives undefined.
   */
  function MemberAccess(parent: Instr, member: Instr, pos: Pos, st: State, stack: Stack, fuel: nat): (r: Result<Done>)
    ensures r.Ok? ==> Grows(st, r.value.st)
    decreases fuel, 0
  {
    if fuel == 0 then Err(Exhausted)
    else
      var d :- Exec(parent, st, stack, fuel - 1);
      var v := Collapse(d.v);
      if !Truthy(v) then Err(RuntimeError("Variable not found", pos))
      else if !v.Inst? then Err(RuntimeError("Cannot access member of " + K.KindName(KindOf(parent)), PosOf(parent)))
      else
        var rec :- InstanceAt(d.st, v.id);
        match member
        case Symbol(mname, mpos) =>
          (match Get(rec.fields, mname)
           case None => Err(RuntimeError("Variable not found in " + NameProp(parent), mpos))
           case Some(x) => Ok(Done(d.st, x)))
        case PatternCall(pname, argsI, mpos) =>
          (match Get(rec.parent.methods, pname)
           case None => Err(RuntimeError("Pattern not found in " + NameProp(parent), mpos))
           case Some(p) =>
             if !IsMethodDef(p) then Err(RuntimeError("Pattern is not a method", mpos))
             else
               var a :- Exec(argsI, d.st, stack, fuel - 1);
               var args :- ArgList(a.v);
               CallRaw(PatternValue(p), args, a.st, stack, pos, v, fuel - 1))
        case _ => Ok(Done(d.st, Undefined))
  }

  // ----- Expressions -----

  /** The stack machine of `execute_expression` from step `k` on, over the value stack `vals`. */
  function EvalSteps(steps: seq<Step>, k: nat, vals: seq<Value>, st: State, stack: Stack, fuel: nat)
    : (r: Result<(State, seq<Value>)>)
    requires k <= |steps|
    ensures r.Ok? ==> Grows(st, r.value.0)
    decreases fuel, |steps| - k
  {
    if k == |steps| then Ok((st, vals))
    else if fuel == 0 then Err(Exhausted)
    else
      var r :- (match steps[k]
        case Operand(i) => PushOperand(i, vals, st, stack, fuel - 1)
        case Apply(op) => ApplyOp(op, vals, st, stack, fuel - 1));
      EvalSteps(steps, k + 1, r.1, r.0, stack, fuel)
  }

  /**
   * An operand step: literals push their value, calls and accesses their result (a bare `.`
   * failing as it does as an instruction), other kinds nothing.
   */
  function PushOperand(i: Instr, vals: seq<Value>, st: State, stack: Stack, fuel: nat): (r: Result<(State, seq<Value>)>)
    ensures r.Ok? ==> Grows(st, r.value.0)
    ensures r.Ok? ==> |vals| <= |r.value.1| <= |vals| + 1 && r.value.1[..|vals|] == vals
    decreases fuel, 0
  {
    if fuel == 0 then Err(Exhausted)
    else
      match i
      case Number(word, _) =>
        var v :- NumberValue(word);
        Ok((st, vals + [v]))
      case String(text, _) => Ok((st, vals + [Str(text)]))
      case Boolean(b, _) => Ok((st, vals + [Bool(b)]))
      case Tuple(_, _, _) =>
        var d :- Exec(i, st, stack, fuel - 1);
        Ok((d.st, vals + [d.v]))
      case PatternCall(name, args, pos) =>
        var d :- CallPattern(name, args, pos, st, stack, fuel - 1);
        Ok((d.st, vals + [d.v]))
      case FunctionCall(_, _, _) => Err(HostError("Unimplemented"))
      case Symbol(name, pos) =>
        var v := FindSymbol(st, stack, name);
        if v == NotFound then Err(RuntimeError("Undefined variable " + name, pos)) else Ok((st, vals + [v]))
      case MemberAccessor(parent, member, pos) =>
        var d :- MemberAccess(parent, member, pos, st, stack, fuel - 1);
        Ok((d.st, vals + [d.v]))
      case Keyword(k, _) => if k == K.MemberAccessor then Err(NoParent) else Ok((st, vals))
      case _ => Ok((st, vals))
  }

  /**
   * An operator step: the table is chosen by the left operand (a one-element tuple unwrapped),
   * then the operands are popped, the entry applied, and its result (unwrapped) pushed.
   */
  function ApplyOp(op: K.Op, vals: seq<Value>, st: State, stack: Stack, fuel: nat): (r: Result<(State, seq<Value>)>)
    ensures r.Ok? ==> Grows(st, r.value.0)
    ensures r.Ok? ==> var n := if K.IsBinary(op) then 2 else 1;
      |vals| >= n && |r.value.1| == |vals| - n + 1 && r.value.1[..|vals| - n] == vals[..|vals| - n]
    decreases fuel, 0
  {
    if fuel == 0 then Err(Exhausted)
    else
      var n := if K.IsBinary(op) then 2 else 1;
      if |vals| < n then Err(HostError("Cannot read properties of undefined"))
      else
        var a := vals[|vals| - n];
        var b := if n == 2 then vals[|vals| - 1] else Null;
        var d :- OperatorCall(op, Collapse(a), a, b, st, stack, fuel - 1);
        Ok((d.st, vals[..|vals| - n] + [Collapse(d.v)]))
  }

  /** The entry of the table for `lhs`'s type applied to the popped operands `a` and `b`. */
  function OperatorCall(op: K.Op, lhs: Value, a: Value, b: Value, st: State, stack: Stack, fuel: nat): (r: Result<Done>)
    ensures r.Ok? ==> Grows(st, r.value.st)
    decreases fuel, 0
  {
    if fuel == 0 then Err(Exhausted)
    else
      match lhs
      case Num(_) =>
        var v :- NumOp(op, a, b);
        Ok(Done(st, v))
      case Bool(_) =>
        if !BoolHas(op) then Err(NoOperator(op, "<bool>"))
        else
          var v :- BoolOp(op, a, b);
          Ok(Done(st, v))
      case Str(_) =>
        if !StrHas(op) then Err(NoOperator(op, "<string>"))
        else
          var v :- StrOp(op, a, b);
          Ok(Done(st, v))
      case Inst(id, _) =>
        var rec :- InstanceAt(st, id);
        if op !in rec.parent.operators then Err(NoOperator(op, rec.parent.name))
        else StructOperator(rec.parent.operators[op], a, b, st, stack, fuel - 1)
      case _ => Err(HostError("Cannot read properties of undefined (reading '" + K.OpName(op) + "')"))
  }

  /**
   * A struct's operator: its method called with the right operand as the only argument and the
   * left operand as the instance, over a `self` frame when the left operand is an instance.
   */
  function StructOperator(p: Instr, a: Value, b: Value, st: State, stack: Stack, fuel: nat): (r: Result<Done>)
    ensures r.Ok? ==> Grows(st, r.value.st)
    decreases fuel, 0
  {
    if fuel == 0 then Err(Exhausted)
    else if a.Inst? && a.copy then Err(HostError("a.to_context is not a function"))
    else if a.Inst? then
      var (st1, sid) := Alloc(st, SelfFrame(a.id));
      CallRaw(PatternValue(p), [b], st1, Tail(stack, sid), NoPos, a, fuel - 1)
    else CallRaw(PatternValue(p), [b], st, stack, NoPos, a, fuel - 1)
  }

  /** A whole program: its top-level block run over the prelude alone. */
  function Run(program: seq<Instr>, fuel: nat): Result<Done>
  {
    RunBlock(program, InitialState, [PreludeId], fuel)
  }
}
