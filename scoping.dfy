// What the evaluator of src/interpreter.js promises about names: assignment reaches the innermost
// binding, a declaration shadows, a block reads its patterns and structs ahead, a call runs over
// the caller's stack (no closures), and the arguments must cover the positional parameters.

module Scoping {

  import opened Errors
  import opened Assoc
  import opened Syntax
  import opened Values
  import opened Contexts
  import opened Arguments
  import opened Blocks
  import opened Prelude
  import opened Interpreter
  import K = Kinds

  /**
   * `name = text`: an error where no frame binds the name; otherwise the old value is the result,
   * the name then reads as the new value, and every other name reads as before.
   */
  lemma AssignLiteral(name: string, text: string, p: Pos, pos: Pos, st: State, stack: Stack, fuel: nat, other: string)
    requires fuel >= 2
    ensures var r := DefineSymbolExec(name, String(text, p), pos, st, stack, fuel);
      Owner(st, stack, Symbols, name).None? ==> r == Err(RuntimeError("No definition of " + name + " found", pos))
    ensures var r := DefineSymbolExec(name, String(text, p), pos, st, stack, fuel);
      Owner(st, stack, Symbols, name).Some? ==>
        (r.Ok? && r.value.v == FindSymbol(st, stack, name)
         && FindSymbol(r.value.st, stack, name) == Str(text)
         && (other != name ==> FindSymbol(r.value.st, stack, other) == FindSymbol(st, stack, other)))
  {
    if Owner(st, stack, Symbols, name).Some? {
      WriteFound(st, stack, name, Str(text), other);
    }
  }

  /**
   * `let name`: an error where the innermost frame already binds the name; otherwise the result
   * is undefined, the name reads as null even where an outer frame binds it, and every other name
   * reads as before.
   */
  lemma DeclareShadows(name: string, pos: Pos, st: State, stack: Stack, fuel: nat, other: string)
    requires fuel >= 1 && |stack| > 0 && stack[|stack| - 1] < |st.frames|
    ensures var r := DeclareSymbolExec(name, None, pos, st, stack, fuel);
      Has(FrameAt(st, stack[|stack| - 1]).symbols, name) ==> r == Err(RuntimeError("Duplicate declaration of " + name, pos))
    ensures var r := DeclareSymbolExec(name, None, pos, st, stack, fuel);
      !Has(FrameAt(st, stack[|stack| - 1]).symbols, name) ==>
        (r.Ok? && r.value.v == Undefined && FindSymbol(r.value.st, stack, name) == Null
         && (other != name ==> FindSymbol(r.value.st, stack, other) == FindSymbol(st, stack, other)))
  {
    DeclareFound(st, stack, name, Null, other);
  }

  /** A block that defines a pattern with a `#` name fails before running anything. */
  lemma ReservedNameRejected(body: seq<Instr>, st: State, stack: Stack, fuel: nat, j: nat)
    requires fuel >= 1 && j < |body| && Reserved(body[j])
    ensures RunBlock(body, st, stack, fuel) == Err(HostError("CompileError is not defined"))
  {
    HoistRejects(body, |body|);
  }

  /**
   * Read-ahead: over the stack a block's instructions run on, each pattern and struct the block
   * defines anywhere, even after the instruction that uses it, is found as its last definition,
   * and names the block does not define are found where they were.
   */
  lemma ReadAhead(body: seq<Instr>, st: State, stack: Stack, x: string, y: string)
    requires Hoist(body).Ok?
    ensures var (st1, id) := Alloc(st, Hoist(body).value);
      (LastPattern(body, |body|, x).Some? ==> FindPattern(st1, Tail(stack, id), x) == LastPattern(body, |body|, x).value)
      && FindSymbol(st1, Tail(stack, id), y) == FindSymbol(st, stack, y)
  {
    var f := Hoist(body).value;
    HoistFinds(body, |body|, x);
    var (st1, id) := Alloc(st, f);
    var s1 := Tail(stack, id);
    if LastPattern(body, |body|, x).Some? {
      GetHas(f.patterns, x);
      assert OwnerBelow(st1, s1, Patterns, x, |s1|) == Some(|stack|);
    }
    PushedLookup(st, stack, f, y);
  }

  /**
   * The frame a call pushes: a parameter name reads as its own argument (names being distinct),
   * and every other name reads as it does for the caller, whatever frame the callee was defined in.
   */
  lemma CalleeScope(params: seq<Param>, vals: seq<Value>, st: State, stack: Stack, x: string)
    requires |params| == |vals|
    ensures var (st1, id) := Alloc(st, EmptyFrame.(symbols := Bind(params, vals)));
      (forall j :: 0 <= j < |params| ==> params[j].name != x) ==> FindSymbol(st1, Tail(stack, id), x) == FindSymbol(st, stack, x)
    ensures var (st1, id) := Alloc(st, EmptyFrame.(symbols := Bind(params, vals)));
      DistinctNames(params) ==> forall j :: 0 <= j < |params| && params[j].name == x ==> FindSymbol(st1, Tail(stack, id), x) == vals[j]
  {
    var f := EmptyFrame.(symbols := Bind(params, vals));
    BindSpec(params, vals, |params|, x);
    GetHas(f.symbols, x);
    if !Has(f.symbols, x) {
      PushedLookup(st, stack, f, x);
    } else {
      var (st1, id) := Alloc(st, f);
      TopLookup(st1, Tail(stack, id), x);
    }
  }

  /**
   * A call with fewer arguments than the callee has positional parameters fails with "Not enough
   * arguments", whatever its SELF and LHS parameters (the caller's stack is never empty).
   */
  lemma NotEnoughArguments(f: Value, args: seq<Value>, st: State, stack: Stack, pos: Pos, inst: Value, fuel: nat)
    requires fuel >= 1 && |stack| > 0 && ParamsOf(f).Ok?
    requires PositionalBefore(ParamsOf(f).value, |ParamsOf(f).value|) > |args|
    ensures CallRaw(f, args, st, stack, pos, inst, fuel) == Err(RuntimeError("Not enough arguments", pos))
  {
    var params := ParamsOf(f).value;
    DistributeSpec(params, args, TopLast(st, stack), inst, pos, |params|);
  }

  /** A tuple evaluates to an array with one slot per marker-separated group of entries. */
  lemma TupleArity(body: seq<Instr>, l: nat, p: Pos, st: State, stack: Stack, fuel: nat)
    ensures var r := Exec(Tuple(body, l, p), st, stack, fuel);
      r.Ok? ==> r.value.v.Arr? && |r.value.v.items| == Width(body, |body|)
  {
    assert Width(body, 0) == 0;
  }

  /** A tuple evaluates to the array its entries fill. */
  lemma TupleValue(body: seq<Instr>, l: nat, p: Pos, st: State, stack: Stack, fuel: nat, st': State, elems: seq<Value>)
    requires fuel >= 1 && FillFrom(body, 0, [], st, stack, fuel - 1) == Ok((st', elems))
    ensures Exec(Tuple(body, l, p), st, stack, fuel) == Ok(Done(st', Arr(elems)))
  {
  }

  /** An element of a tuple that leaves the state as it is goes to the slot its markers give it. */
  lemma ElementStep(body: seq<Instr>, k: nat, elems: seq<Value>, v: Value, st: State, stack: Stack, fuel: nat)
    requires k < |body| && !IsMarker(body[k]) && fuel >= 1 && Exec(body[k], st, stack, fuel - 1) == Ok(Done(st, v))
    ensures FillFrom(body, k, elems, st, stack, fuel) == FillFrom(body, k + 1, SetSlot(elems, SlotOf(body, k), v), st, stack, fuel)
  {
  }

  /** A marker of a tuple evaluates nothing. */
  lemma MarkerStep(body: seq<Instr>, k: nat, elems: seq<Value>, st: State, stack: Stack, fuel: nat)
    requires k < |body| && IsMarker(body[k])
    ensures FillFrom(body, k, elems, st, stack, fuel) == FillFrom(body, k + 1, elems, st, stack, fuel)
  {
  }

  /**
   * `name = e` for any right side: without an owner the right side never runs; otherwise the
   * frame assigned is the innermost owner found BEFORE the right side runs, the result is the
   * value read then, and an error of the right side is the result.
   */
  lemma AssignEvaluated(name: string, right: Instr, pos: Pos, st: State, stack: Stack, fuel: nat)
    requires fuel >= 1
    ensures var r := DefineSymbolExec(name, right, pos, st, stack, fuel);
      Owner(st, stack, Symbols, name).None? ==> r == Err(RuntimeError("No definition of " + name + " found", pos))
    ensures var r := DefineSymbolExec(name, right, pos, st, stack, fuel);
      var e := Exec(right, st, stack, fuel - 1);
      Owner(st, stack, Symbols, name).Some? ==>
        (e.Err? ==> r == Err(e.error))
        && (e.Ok? ==>
              r.Ok? && r.value.v == FindSymbol(st, stack, name)
              && r.value.st == WriteSymbol(e.value.st, stack[Owner(st, stack, Symbols, name).value], name, e.value.v))
  {
  }

  /**
   * Hence, where the right side leaves the owner of the name where it was, the name reads as the
   * right side's value afterwards and every other name reads as the right side left it.
   */
  lemma AssignReads(name: string, right: Instr, pos: Pos, st: State, stack: Stack, fuel: nat, other: string)
    requires fuel >= 1 && Owner(st, stack, Symbols, name).Some?
    ensures var r := DefineSymbolExec(name, right, pos, st, stack, fuel);
      var e := Exec(right, st, stack, fuel - 1);
      e.Ok? && Owner(e.value.st, stack, Symbols, name) == Owner(st, stack, Symbols, name) ==>
        r.Ok? && FindSymbol(r.value.st, stack, name) == e.value.v
        && (other != name ==> FindSymbol(r.value.st, stack, other) == FindSymbol(e.value.st, stack, other))
  {
    var e := Exec(right, st, stack, fuel - 1);
    if e.Ok? && Owner(e.value.st, stack, Symbols, name) == Owner(st, stack, Symbols, name) {
      AssignEvaluated(name, right, pos, st, stack, fuel);
      WriteFound(e.value.st, stack, name, e.value.v, other);
    }
  }

  /**
   * `let name = e`: an error where the innermost frame already binds the name, before `e` runs;
   * otherwise an error of `e` is the result, or else the result is undefined, the name reads as
   * `e`'s value even where an outer frame binds it, and every other name reads as `e` left it.
   */
  lemma DeclareEvaluated(name: string, e: Instr, pos: Pos, st: State, stack: Stack, fuel: nat, other: string)
    requires fuel >= 1 && |stack| > 0 && stack[|stack| - 1] < |st.frames|
    ensures var r := DeclareSymbolExec(name, Some(e), pos, st, stack, fuel);
      Has(FrameAt(st, stack[|stack| - 1]).symbols, name) ==> r == Err(RuntimeError("Duplicate declaration of " + name, pos))
    ensures var r := DeclareSymbolExec(name, Some(e), pos, st, stack, fuel);
      var d := Exec(e, st, stack, fuel - 1);
      !Has(FrameAt(st, stack[|stack| - 1]).symbols, name) ==>
        (d.Err? ==> r == Err(d.error))
        && (d.Ok? ==>
              r.Ok? && r.value.v == Undefined && FindSymbol(r.value.st, stack, name) == d.value.v
              && (other != name ==> FindSymbol(r.value.st, stack, other) == FindSymbol(d.value.st, stack, other)))
  {
    var d := Exec(e, st, stack, fuel - 1);
    if d.Ok? {
      DeclareFound(d.value.st, stack, name, d.value.v, other);
    }
  }

  /**
   * The instruction loop run to its last entry is the loop over the other entries, then the last
   * entry, whose value the block's frame keeps as its `last_value`.
   */
  lemma {:induction false} RunFromLast(body: seq<Instr>, k: nat, st: State, stack: Stack, top: nat, fuel: nat)
    requires k < |body| && fuel >= 1
    ensures RunFrom(body, k, st, stack, top, fuel) ==
      (var s :- RunFrom(body[..|body| - 1], k, st, stack, top, fuel);
       var d :- Exec(body[|body| - 1], s, stack, fuel - 1);
       Ok(WriteLast(d.st, top, d.v)))
    decreases |body| - k
  {
    var init := body[..|body| - 1];
    if k < |body| - 1 {
      assert init[k] == body[k];
      var e := Exec(body[k], st, stack, fuel - 1);
      if e.Ok? {
        RunFromLast(body, k + 1, WriteLast(e.value.st, top, e.value.v), stack, top, fuel);
      }
    }
  }

  /**
   * A block's value is its last instruction's: the value that instruction gives in the state the
   * earlier instructions leave, over the block's frame; the first error is the block's error.
   */
  lemma BlockValue(body: seq<Instr>, st: State, stack: Stack, fuel: nat)
    requires fuel >= 2 && |body| > 0
    ensures Hoist(body).Err? ==> RunBlock(body, st, stack, fuel) == Err(Hoist(body).error)
    ensures Hoist(body).Ok? ==>
      var r := RunBlock(body, st, stack, fuel);
      var (st1, id) := Alloc(st, Hoist(body).value);
      var s := RunFrom(body[..|body| - 1], 0, st1, Tail(stack, id), id, fuel - 1);
      (s.Err? ==> r == Err(s.error))
      && (s.Ok? ==>
            var d := Exec(body[|body| - 1], s.value, Tail(stack, id), fuel - 2);
            (d.Err? ==> r == Err(d.error))
            && (d.Ok? ==> r.Ok? && r.value.v == d.value.v))
  {
    if Hoist(body).Ok? {
      var (st1, id) := Alloc(st, Hoist(body).value);
      RunFromLast(body, 0, st1, Tail(stack, id), id, fuel - 1);
      var s := RunFrom(body[..|body| - 1], 0, st1, Tail(stack, id), id, fuel - 1);
      if s.Ok? {
        var d := Exec(body[|body| - 1], s.value, Tail(stack, id), fuel - 2);
        if d.Ok? {
          assert id < |d.value.st.frames|;
        }
      }
    }
  }

  /**
   * A block holding a `.` the accessor pass left in place (the second `.` of `a.b.c`) never gives
   * a value: an instruction before it fails, or the `.` itself does.
   */
  lemma {:induction false} StrayDotFails(body: seq<Instr>, k: nat, j: nat, st: State, stack: Stack, top: nat, fuel: nat)
    requires k <= j < |body| && IsKeyword(body[j], K.MemberAccessor)
    ensures var r := RunFrom(body, k, st, stack, top, fuel);
      r.Err? && (k == j && fuel >= 2 ==> r.error == NoParent)
    decreases |body| - k
  {
    if fuel > 0 && k < j {
      var e := Exec(body[k], st, stack, fuel - 1);
      if e.Ok? {
        StrayDotFails(body, k + 1, j, WriteLast(e.value.st, top, e.value.v), stack, top, fuel);
      }
    }
  }
}
