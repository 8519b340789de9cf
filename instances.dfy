// What the struct part of src/interpreter.js and src/struct.js promises: an instance starts with
// every field of its struct, fields without a default are null and the others hold their default
// evaluated over the prelude alone, a member assignment changes that one field and hands back the
// old value, a member read sees it, a method runs over the caller's scope with the instance as its
// `instance` option, and a constructor or an operator runs with `self` bound to a copy of the
// instance that shares its fields.

module Instances {

  import opened Errors
  import opened Assoc
  import opened Syntax
  import opened Values
  import opened Structs
  import opened Contexts
  import opened Arguments
  import opened Blocks
  import opened Prelude
  import opened Interpreter
  import opened Scoping
  import K = Kinds
  import M = Mangle

  /** The instance a symbol names, when it names one the state holds. */
  predicate NamesInstance(st: State, stack: Stack, o: string, id: nat)
  {
    id < |st.instances| && exists c :: FindSymbol(st, stack, o) == Inst(id, c)
  }

  /**
   * The field loop over fields that have no default: it evaluates nothing, and each of those
   * fields is null while every other key keeps its value.
   */
  lemma {:induction false} NullFields(fields: Entries<Field>, k: nat, acc: Entries<Value>, st: State, fuel: nat, x: string)
    requires k <= |fields| && forall j :: k <= j < |fields| ==> fields[j].1.default.None?
    ensures var r := InitFields(fields, k, acc, st, fuel);
      r.Ok? && r.value.0 == st
      && Get(r.value.1, x) == if exists j :: k <= j < |fields| && fields[j].0 == x then Some(Null) else Get(acc, x)
    decreases |fields| - k
  {
    if k < |fields| {
      var name := fields[k].0;
      NullFields(fields, k + 1, Put(acc, name, Null), st, fuel, x);
      PutGet(acc, name, Null, x);
      if x == name {
        assert fields[k].0 == x;
      }
    }
  }

  /** `struct.instance()` for a struct whose fields have no defaults: every field is null, nothing else is a field. */
  lemma NewInstanceNull(def: StructDef, st: State, fuel: nat, x: string)
    requires fuel >= 1 && forall j :: 0 <= j < |def.fields| ==> def.fields[j].1.default.None?
    ensures var r := NewInstance(def, st, fuel);
      r.Ok? && r.value.1 == |st.instances|
      && Get(r.value.0.instances[r.value.1].fields, x) == if Has(def.fields, x) then Some(Null) else None
  {
    NullFields(def.fields, 0, [], st, fuel - 1, x);
    if Has(def.fields, x) {
      var j :| 0 <= j < |def.fields| && Keys(def.fields)[j] == x;
      assert def.fields[j].0 == x;
    }
  }

  /**
   * `o.m = text`: where `o` names an instance without field `m`, an error; otherwise the result
   * is the field's old value, the field then holds the new one, and no other field and no frame
   * changes. `o` may be `self`, the copy of the instance a constructor or an operator runs with:
   * it writes the instance.
   */
  lemma AssignField(o: string, m: string, p: Pos, q: Pos, text: string, p2: Pos, pos: Pos,
                    st: State, stack: Stack, fuel: nat, id: nat, other: string)
    requires fuel >= 2 && NamesInstance(st, stack, o, id)
    ensures var r := DefineMemberExec(Some(Symbol(o, p)), Some(Symbol(m, q)), String(text, p2), pos, st, stack, fuel);
      !Has(st.instances[id].fields, m) ==> r == Err(RuntimeError("Variable not found in " + o, q))
    ensures var r := DefineMemberExec(Some(Symbol(o, p)), Some(Symbol(m, q)), String(text, p2), pos, st, stack, fuel);
      Has(st.instances[id].fields, m) ==>
        (r.Ok? && Some(r.value.v) == Get(st.instances[id].fields, m)
         && r.value.st.frames == st.frames
         && Get(r.value.st.instances[id].fields, m) == Some(Str(text))
         && (other != m ==> Get(r.value.st.instances[id].fields, other) == Get(st.instances[id].fields, other)))
  {
    GetHas(st.instances[id].fields, m);
  }

  /**
   * `o.m = e` for any right side: where the instance `o` names lacks field `m`, an error before
   * `e` runs; otherwise an error of `e` is the result, or else the result is the field's value
   * from before `e` ran, and in the state `e` leaves that instance's field `m` then holds `e`'s
   * value, its other fields and every frame being as `e` left them.
   */
  lemma AssignFieldEvaluated(o: string, m: string, p: Pos, q: Pos, right: Instr, pos: Pos,
                             st: State, stack: Stack, fuel: nat, id: nat, other: string)
    requires fuel >= 1 && NamesInstance(st, stack, o, id)
    ensures var r := DefineMemberExec(Some(Symbol(o, p)), Some(Symbol(m, q)), right, pos, st, stack, fuel);
      !Has(st.instances[id].fields, m) ==> r == Err(RuntimeError("Variable not found in " + o, q))
    ensures var r := DefineMemberExec(Some(Symbol(o, p)), Some(Symbol(m, q)), right, pos, st, stack, fuel);
      var e := Exec(right, st, stack, fuel - 1);
      Has(st.instances[id].fields, m) ==>
        (e.Err? ==> r == Err(e.error))
        && (e.Ok? ==>
              r.Ok? && Some(r.value.v) == Get(st.instances[id].fields, m)
              && r.value.st.frames == e.value.st.frames
              && Get(r.value.st.instances[id].fields, m) == Some(e.value.v)
              && (other != m ==> Get(r.value.st.instances[id].fields, other) == Get(e.value.st.instances[id].fields, other)))
  {
    GetHas(st.instances[id].fields, m);
  }

  /**
   * `o.m`: where `o` names an instance, its field `m`, or an error where it has none; reading
   * changes nothing.
   */
  lemma ReadField(o: string, m: string, p: Pos, q: Pos, pos: Pos, st: State, stack: Stack, fuel: nat, id: nat)
    requires fuel >= 2 && NamesInstance(st, stack, o, id)
    ensures var r := MemberAccess(Symbol(o, p), Symbol(m, q), pos, st, stack, fuel);
      match Get(st.instances[id].fields, m)
      case None => r == Err(RuntimeError("Variable not found in " + o, q))
      case Some(x) => r == Ok(Done(st, x))
  {
    var c :| FindSymbol(st, stack, o) == Inst(id, c);
    assert Exec(Symbol(o, p), st, stack, fuel - 1) == Ok(Done(st, Inst(id, c)));
  }

  /** A member assignment followed by a read of the same member gives the assigned value. */
  lemma AssignThenRead(o: string, m: string, p: Pos, q: Pos, text: string, p2: Pos, pos: Pos,
                       st: State, stack: Stack, fuel: nat, id: nat)
    requires fuel >= 2 && NamesInstance(st, stack, o, id) && Has(st.instances[id].fields, m)
    ensures var w := DefineMemberExec(Some(Symbol(o, p)), Some(Symbol(m, q)), String(text, p2), pos, st, stack, fuel);
      w.Ok? && MemberAccess(Symbol(o, p), Symbol(m, q), pos, w.value.st, stack, fuel) == Ok(Done(w.value.st, Str(text)))
  {
    AssignField(o, m, p, q, text, p2, pos, st, stack, fuel, id, m);
    var w := DefineMemberExec(Some(Symbol(o, p)), Some(Symbol(m, q)), String(text, p2), pos, st, stack, fuel);
    var c :| FindSymbol(st, stack, o) == Inst(id, c);
    SameFramesLookup(st, w.value.st, stack, o);
    ReadField(o, m, p, q, pos, w.value.st, stack, fuel, id);
  }

  /**
   * `instance.to_context(stack)`, as a constructor and an operator run under it: `self` names a
   * copy of the instance, and every other name is found where the caller finds it.
   */
  lemma SelfBinding(id: nat, st: State, stack: Stack, y: string)
    ensures var (st1, sid) := Alloc(st, SelfFrame(id));
      FindSymbol(st1, Tail(stack, sid), "self") == Inst(id, true)
      && (y != "self" ==> FindSymbol(st1, Tail(stack, sid), y) == FindSymbol(st, stack, y))
  {
    var (st1, sid) := Alloc(st, SelfFrame(id));
    assert Keys(SelfFrame(id).symbols) == ["self"];
    TopLookup(st1, Tail(stack, sid), "self");
    if y != "self" {
      PushedLookup(st, stack, SelfFrame(id), y);
    }
  }

  /** STRUCT_INIT refuses a pattern flagged as a method as the constructor, before creating anything. */
  lemma MethodIsNoConstructor(name: string, ctor: string, argsI: Instr, pos: Pos, st: State, stack: Stack, fuel: nat, p: Instr)
    requires fuel >= 1 && FindStruct(st, stack, name).Some?
    requires Get(FindStruct(st, stack, name).value.methods, ctor) == Some(p) && IsMethodDef(p)
    ensures StructInitExec(name, ctor, argsI, pos, st, stack, fuel) == Err(RuntimeError("Pattern undefined is not a constructor.", pos))
  {
  }

  // ----- Field defaults -----

  /** The value of a default that is a literal, or null for a field without one; None for any other default. */
  function ConstDefault(f: Field): Option<Value>
  {
    match f.default
    case None => Some(Null)
    case Some(String(t, _)) => Some(Str(t))
    case Some(Boolean(b, _)) => Some(Bool(b))
    case Some(Number(w, _)) => if NumberValue(w).Ok? then Some(NumberValue(w).value) else None
    case Some(_) => None
  }

  /**
   * The field loop over fields whose defaults are literals, under distinct names: it leaves the
   * instances and the output alone, each of those fields holds its default's value, and every
   * other key keeps its value.
   */
  lemma {:induction false} LiteralFields(fields: Entries<Field>, k: nat, acc: Entries<Value>, st: State, fuel: nat, x: string)
    requires k <= |fields| && fuel >= 2 && Distinct(Keys(fields))
    requires forall j :: k <= j < |fields| ==> ConstDefault(fields[j].1).Some?
    ensures var r := InitFields(fields, k, acc, st, fuel);
      r.Ok? && r.value.0.instances == st.instances && r.value.0.out == st.out
      && (forall j :: k <= j < |fields| && fields[j].0 == x ==> Get(r.value.1, x) == ConstDefault(fields[j].1))
      && ((forall j :: k <= j < |fields| ==> fields[j].0 != x) ==> Get(r.value.1, x) == Get(acc, x))
    decreases |fields| - k
  {
    if k < |fields| {
      var name := fields[k].0;
      var v := ConstDefault(fields[k].1).value;
      PutGet(acc, name, v, x);
      var st1 := st;
      if fields[k].1.default.Some? {
        var (s1, fid) := Alloc(st, EmptyFrame);
        assert Exec(fields[k].1.default.value, s1, [PreludeId, fid], fuel - 1) == Ok(Done(s1, v));
        st1 := s1;
      }
      assert InitFields(fields, k, acc, st, fuel) == InitFields(fields, k + 1, Put(acc, name, v), st1, fuel);
      LiteralFields(fields, k + 1, Put(acc, name, v), st1, fuel, x);
      forall j | k < j < |fields|
        ensures fields[j].0 != name
      {
        assert Keys(fields)[k] != Keys(fields)[j];
      }
    }
  }

  /**
   * `struct.instance()` for a struct whose defaults are literals: the new instance holds every
   * field's default value under its name, and only those names.
   */
  lemma NewInstanceDefaults(def: StructDef, st: State, fuel: nat, x: string)
    requires fuel >= 3 && Distinct(Keys(def.fields))
    requires forall j :: 0 <= j < |def.fields| ==> ConstDefault(def.fields[j].1).Some?
    ensures var r := NewInstance(def, st, fuel);
      r.Ok? && r.value.1 == |st.instances|
      && (forall j :: 0 <= j < |def.fields| && def.fields[j].0 == x ==>
            Get(r.value.0.instances[r.value.1].fields, x) == ConstDefault(def.fields[j].1))
      && (!Has(def.fields, x) ==> Get(r.value.0.instances[r.value.1].fields, x).None?)
  {
    LiteralFields(def.fields, 0, [], st, fuel - 1, x);
  }

  /**
   * A default is evaluated over the prelude and a fresh frame only: a default that is a name the
   * prelude does not bind fails, even where the code creating the instance binds it.
   */
  lemma DefaultScope(fields: Entries<Field>, k: nat, acc: Entries<Value>, st: State, fuel: nat, y: string, q: Pos)
    requires k < |fields| && fuel >= 2 && fields[k].1.default == Some(Symbol(y, q))
    requires FindSymbol(st, [PreludeId], y) == NotFound
    ensures InitFields(fields, k, acc, st, fuel) == Err(RuntimeError("Undefined variable: " + y, q))
  {
    PushedLookup(st, [PreludeId], EmptyFrame, y);
  }

  // ----- Member access -----

  /**
   * `o.m(args)`: an error where the struct of the instance `o` names has no method `m`, another
   * where `m` is a pattern not flagged as a method, both before the arguments run; otherwise the
   * method runs by call_raw on the caller's own stack, with no frame binding `self`. The instance
   * is passed as the `instance` option, which only a SELF-kind parameter reads, and the mangler
   * builds no such parameter: a `#self()` in the argument tuple is an ordinary positional
   * parameter (see SelfIsPositional).
   */
  lemma MethodCall(o: string, m: string, argsI: Instr, p: Pos, q: Pos, pos: Pos, st: State, stack: Stack, fuel: nat, id: nat)
    requires fuel >= 2 && NamesInstance(st, stack, o, id)
    ensures var r := MemberAccess(Symbol(o, p), PatternCall(m, argsI, q), pos, st, stack, fuel);
      match Get(st.instances[id].parent.methods, m)
      case None => r == Err(RuntimeError("Pattern not found in " + o, q))
      case Some(mp) =>
        (!IsMethodDef(mp) ==> r == Err(RuntimeError("Pattern is not a method", q)))
        && (IsMethodDef(mp) ==>
              r == (var a :- Exec(argsI, st, stack, fuel - 1);
                    var args :- ArgList(a.v);
                    CallRaw(PatternValue(mp), args, a.st, stack, pos, FindSymbol(st, stack, o), fuel - 1)))
  {
    var c :| FindSymbol(st, stack, o) == Inst(id, c);
    assert Exec(Symbol(o, p), st, stack, fuel - 1) == Ok(Done(st, Inst(id, c)));
  }

  /**
   * The mangler reads `#self()` in an argument tuple as a positional parameter named `self`, so
   * it takes the first argument rather than the instance: a method `(#self(), x) => ...` called
   * with one argument, as `o.m(v)` calls it, fails with "Not enough arguments" whatever the
   * instance option holds.
   */
  lemma SelfIsPositional(x: string, p: Pos, q: Pos, code: Instr, v: Value, st: State, stack: Stack, pos: Pos,
                         inst: Value, fuel: nat)
    requires fuel >= 1 && |stack| > 0
    ensures M.ParamsOf([PatternCall("#self", Tuple([], 0, q), q), Symbol(x, p)])
      == Ok(([Param("self", Positional), Param(x, Positional)], true))
    ensures CallRaw(Fn([Param("self", Positional), Param(x, Positional)], code, true), [v], st, stack, pos, inst, fuel)
      == Err(RuntimeError("Not enough arguments", pos))
  {
    var params := [Param("self", Positional), Param(x, Positional)];
    M.SelfThenSymbol(x, p, q);
    assert PositionalBefore(params, 0) == 0;
    assert PositionalBefore(params, 1) == 1;
    assert PositionalBefore(params, |params|) == 2;
    NotEnoughArguments(Fn(params, code, true), [v], st, stack, pos, inst, fuel);
  }

  /**
   * A member of a value that is not an instance: "Variable not found" for a falsy one, and
   * "Cannot access member of" with the parent's kind, at the parent, for any other.
   */
  lemma MemberOfNonInstance(parent: Instr, member: Instr, pos: Pos, st: State, stack: Stack, fuel: nat, d: Done)
    requires fuel >= 1 && Exec(parent, st, stack, fuel - 1) == Ok(d) && !Collapse(d.v).Inst?
    ensures !Truthy(Collapse(d.v)) ==>
      MemberAccess(parent, member, pos, st, stack, fuel) == Err(RuntimeError("Variable not found", pos))
    ensures Truthy(Collapse(d.v)) ==>
      MemberAccess(parent, member, pos, st, stack, fuel)
        == Err(RuntimeError("Cannot access member of " + K.KindName(KindOf(parent)), PosOf(parent)))
  {
  }

  /** The instruction `o.m` reading a field of the instance `o` names. */
  lemma FieldStep(o: string, m: string, p: Pos, st: State, stack: Stack, fuel: nat, id: nat, x: Value)
    requires fuel >= 3 && NamesInstance(st, stack, o, id) && Get(st.instances[id].fields, m) == Some(x)
    ensures Exec(MemberAccessor(Symbol(o, p), Symbol(m, p), p), st, stack, fuel) == Ok(Done(st, x))
  {
    ReadField(o, m, p, p, p, st, stack, fuel - 1, id);
  }

  /**
   * `a.b.c`: the accessor pass joins `a.b` and leaves the second `.` in the block, where running
   * it fails for want of a parent, even where `a.b` itself reads a field.
   */
  lemma ChainedAccessFails(a: string, b: string, c: string, p: Pos, st: State, stack: Stack, fuel: nat, id: nat)
    requires fuel >= 5 && NamesInstance(st, stack, a, id) && Has(st.instances[id].fields, b)
    ensures RunBlock([MemberAccessor(Symbol(a, p), Symbol(b, p), p), Keyword(K.MemberAccessor, p), Symbol(c, p)],
                     st, stack, fuel) == Err(NoParent)
  {
    ChainHoist(a, b, c, p);
    var (st1, fid) := Alloc(st, EmptyFrame);
    PushedLookup(st, stack, EmptyFrame, a);
    ChainRunFails(a, b, c, p, st1, Tail(stack, fid), fid, fuel - 1, id);
  }

  /** The instruction loop over `[a.b, ., c]`: `a.b` runs, then the stray `.` fails. */
  lemma ChainRunFails(a: string, b: string, c: string, p: Pos, st: State, stack: Stack, top: nat, fuel: nat, id: nat)
    requires fuel >= 4 && NamesInstance(st, stack, a, id) && Has(st.instances[id].fields, b)
    ensures RunFrom([MemberAccessor(Symbol(a, p), Symbol(b, p), p), Keyword(K.MemberAccessor, p), Symbol(c, p)],
                    0, st, stack, top, fuel) == Err(NoParent)
  {
    var body := [MemberAccessor(Symbol(a, p), Symbol(b, p), p), Keyword(K.MemberAccessor, p), Symbol(c, p)];
    GetHas(st.instances[id].fields, b);
    var x := Get(st.instances[id].fields, b).value;
    FieldStep(a, b, p, st, stack, fuel - 1, id, x);
    StrayDotFails(body, 1, 1, WriteLast(st, top, x), stack, top, fuel);
    assert RunFrom(body, 0, st, stack, top, fuel) == RunFrom(body, 1, WriteLast(st, top, x), stack, top, fuel);
  }

  /** The block `[a.b, ., c]` defines nothing, so its frame starts empty. */
  lemma ChainHoist(a: string, b: string, c: string, p: Pos)
    ensures Hoist([MemberAccessor(Symbol(a, p), Symbol(b, p), p), Keyword(K.MemberAccessor, p), Symbol(c, p)]) == Ok(EmptyFrame)
  {
    var body := [MemberAccessor(Symbol(a, p), Symbol(b, p), p), Keyword(K.MemberAccessor, p), Symbol(c, p)];
    assert HoistUpTo(body, 1) == Ok(EmptyFrame);
    assert HoistUpTo(body, 2) == Ok(EmptyFrame);
  }

  // ----- Struct operators -----

  /**
   * An operator of a struct applied to an instance `a` (not a copy): its method runs with the
   * right operand as its one argument, over a frame binding `self` to a copy of `a` pushed on the
   * caller's stack, under the parameter frame; the parameters read their values, `self` where no
   * parameter takes that name reads the copy, and every other name reads as it does for the caller.
   */
  lemma OperatorRunsMethod(p: Instr, id: nat, b: Value, st: State, stack: Stack, fuel: nat,
                           vals: seq<Value>, body: seq<Instr>, x: string)
    requires fuel >= 2 && p.DefinePattern? && CodeBody(p.code) == Ok(body)
    requires var (st1, sid) := Alloc(st, SelfFrame(id));
      Distribute(p.params, [b], TopLast(st1, Tail(stack, sid)), Inst(id, false), NoPos) == Ok(vals)
    ensures var (st1, sid) := Alloc(st, SelfFrame(id));
      var (st2, pid) := Alloc(st1, EmptyFrame.(symbols := Bind(p.params, vals)));
      var s2 := Tail(Tail(stack, sid), pid);
      StructOperator(p, Inst(id, false), b, st, stack, fuel) == RunBlock(body, st2, s2, fuel - 2)
      && (DistinctNames(p.params) ==> forall j :: 0 <= j < |p.params| && p.params[j].name == x ==> FindSymbol(st2, s2, x) == vals[j])
      && ((forall j :: 0 <= j < |p.params| ==> p.params[j].name != x) ==>
            FindSymbol(st2, s2, x) == if x == "self" then Inst(id, true) else FindSymbol(st, stack, x))
  {
    var (st1, sid) := Alloc(st, SelfFrame(id));
    SelfBinding(id, st, stack, x);
    CalleeScope(p.params, vals, st1, Tail(stack, sid), x);
  }

  /**
   * An operator applied to a copy of an instance, which is what `self` holds in a constructor or
   * an operator, fails: a copy has no `to_context`.
   */
  lemma OperatorOnCopyFails(p: Instr, id: nat, b: Value, st: State, stack: Stack, fuel: nat)
    requires fuel >= 1
    ensures StructOperator(p, Inst(id, true), b, st, stack, fuel) == Err(HostError("a.to_context is not a function"))
  {
  }
}
