// Context frames (src/context.js) and the lookups of src/interpreter.js that walk a stack of them.
// Frames live in an arena, so that a frame shared by several stacks, and an instance shared with
// the `self` copy of it, are one place that every holder sees updated.

module Contexts {

  import opened Errors
  import opened Assoc
  import opened Values
  import opened Structs

  /** A Context: its `symbols`, `patterns` and `structs` dictionaries and its `last_value`. */
  datatype Frame = Frame(
    symbols: Entries<Value>,
    patterns: Entries<Value>,
    structs: Entries<StructDef>,
    last: Value)

  /** `new Context()`: empty dictionaries and a `last_value` of null. */
  const EmptyFrame := Frame([], [], [], Null)

  /**
   * Every Context and every StructInstance created so far, by identity, and the text written to
   * standard output.
   */
  datatype State = State(frames: seq<Frame>, instances: seq<Instance>, out: string)

  /** A context stack, innermost frame last. */
  type Stack = seq<nat>

  /** The frame with identity `id`; identities the arena has not handed out read as empty frames. */
  function FrameAt(st: State, id: nat): Frame
  {
    if id < |st.frames| then st.frames[id] else EmptyFrame
  }

  /** A fresh frame holding `f`, and its identity. */
  function Alloc(st: State, f: Frame): (r: (State, nat))
    ensures r.1 == |st.frames| && FrameAt(r.0, r.1) == f
    ensures forall id :: id != r.1 ==> FrameAt(r.0, id) == FrameAt(st, id)
    ensures r.0.instances == st.instances && r.0.out == st.out
  {
    (st.(frames := st.frames + [f]), |st.frames|)
  }

  /** `ctx.tail(stack)`: the stack with `ctx` on top. */
  function Tail(stack: Stack, id: nat): (r: Stack)
    ensures |r| == |stack| + 1 && r[..|stack|] == stack && r[|stack|] == id
  {
    stack + [id]
  }

  /** The three dictionaries a frame owns names in. */
  datatype Space = Symbols | Patterns | Structs

  /** `frame[space].hasOwnProperty(name)`. */
  predicate Owns(f: Frame, sp: Space, name: string)
  {
    match sp
    case Symbols => Has(f.symbols, name)
    case Patterns => Has(f.patterns, name)
    case Structs => Has(f.structs, name)
  }

  /**
   * The position, among the lowest `n` of the stack, of the innermost frame that owns `name`: the
   * downward loop of find_symbol_in_stack, find_pattern_in_stack and find_struct_in_stack.
   */
  function OwnerBelow(st: State, stack: Stack, sp: Space, name: string, n: nat): (r: Option<nat>)
    requires n <= |stack|
    ensures r.Some? ==> r.value < n && Owns(FrameAt(st, stack[r.value]), sp, name)
    ensures r.Some? ==> forall k :: r.value < k < n ==> !Owns(FrameAt(st, stack[k]), sp, name)
    ensures r.None? ==> forall k :: 0 <= k < n ==> !Owns(FrameAt(st, stack[k]), sp, name)
  {
    if n == 0 then None
    else if Owns(FrameAt(st, stack[n - 1]), sp, name) then Some(n - 1)
    else OwnerBelow(st, stack, sp, name, n - 1)
  }

  /** The position of the innermost frame of the stack that owns `name`. */
  function Owner(st: State, stack: Stack, sp: Space, name: string): Option<nat>
  {
    OwnerBelow(st, stack, sp, name, |stack|)
  }

  /** The search loop itself, from the top of the stack down. */
  method FindOwner(st: State, stack: Stack, sp: Space, name: string) returns (r: Option<nat>)
    ensures r == Owner(st, stack, sp, name)
  {
    var n: nat := |stack|;
    while n > 0
      invariant n <= |stack|
      invariant OwnerBelow(st, stack, sp, name, |stack|) == OwnerBelow(st, stack, sp, name, n)
    {
      if Owns(FrameAt(st, stack[n - 1]), sp, name) {
        return Some(n - 1);
      }
      n := n - 1;
    }
    return None;
  }

  /** find_symbol_in_stack: the innermost binding of `name`, or NOT_FOUND. */
  function FindSymbol(st: State, stack: Stack, name: string): Value
  {
    match Owner(st, stack, Symbols, name)
    case None => NotFound
    case Some(k) => match Get(FrameAt(st, stack[k]).symbols, name) case Some(v) => v case None => NotFound
  }

  /** find_pattern_in_stack. */
  function FindPattern(st: State, stack: Stack, name: string): Value
  {
    match Owner(st, stack, Patterns, name)
    case None => NotFound
    case Some(k) => match Get(FrameAt(st, stack[k]).patterns, name) case Some(v) => v case None => NotFound
  }

  /** find_struct_in_stack; None stands for NOT_FOUND. */
  function FindStruct(st: State, stack: Stack, name: string): Option<StructDef>
  {
    match Owner(st, stack, Structs, name)
    case None => None
    case Some(k) => Get(FrameAt(st, stack[k]).structs, name)
  }

  /** A lookup finds the value the innermost owner holds, and NOT_FOUND only where no frame owns the name. */
  lemma FindSymbolSpec(st: State, stack: Stack, name: string)
    ensures Owner(st, stack, Symbols, name).None? ==> FindSymbol(st, stack, name) == NotFound
    ensures Owner(st, stack, Symbols, name).Some? ==>
      Get(FrameAt(st, stack[Owner(st, stack, Symbols, name).value]).symbols, name) == Some(FindSymbol(st, stack, name))
  {
    var o := Owner(st, stack, Symbols, name);
    if o.Some? {
      GetHas(FrameAt(st, stack[o.value]).symbols, name);
    }
  }

  /** The frame `id` replaced by `f`. */
  function SetFrame(st: State, id: nat, f: Frame): (r: State)
    ensures id < |st.frames| ==> FrameAt(r, id) == f
    ensures forall other :: other != id ==> FrameAt(r, other) == FrameAt(st, other)
    ensures |r.frames| == |st.frames| && r.instances == st.instances && r.out == st.out
  {
    if id < |st.frames| then st.(frames := st.frames[id := f]) else st
  }

  /** `frame.symbols[name] = v`. */
  function WriteSymbol(st: State, id: nat, name: string, v: Value): State
  {
    var f := FrameAt(st, id);
    SetFrame(st, id, f.(symbols := Put(f.symbols, name, v)))
  }

  /** `frame.last_value = v`. */
  function WriteLast(st: State, id: nat, v: Value): State
  {
    SetFrame(st, id, FrameAt(st, id).(last := v))
  }

  /** The instance with identity `id`; a dangling identity is outside the model. */
  function InstanceAt(st: State, id: nat): (r: Result<Instance>)
    ensures r.Ok? <==> id < |st.instances|
  {
    if id < |st.instances| then Ok(st.instances[id]) else Err(Unmodelled("dangling instance"))
  }

  /** `instance.symbols[name] = v`, for a field the instance has. */
  function WriteField(st: State, id: nat, name: string, v: Value): (r: State)
    requires id < |st.instances| && Has(st.instances[id].fields, name)
    ensures r.frames == st.frames && r.out == st.out && |r.instances| == |st.instances|
    ensures Get(r.instances[id].fields, name) == Some(v)
    ensures forall x :: x != name ==> Get(r.instances[id].fields, x) == Get(st.instances[id].fields, x)
    ensures forall k :: 0 <= k < |st.instances| && k != id ==> r.instances[k] == st.instances[k]
    ensures Grows(st, r)
  {
    var rec := st.instances[id];
    PutKeys(rec.fields, name, v);
    PutGet(rec.fields, name, v, name);
    assert forall x :: x != name ==> Get(Put(rec.fields, name, v), x) == Get(rec.fields, x) by {
      forall x | x != name
        ensures Get(Put(rec.fields, name, v), x) == Get(rec.fields, x)
      {
        PutGet(rec.fields, name, v, x);
      }
    }
    st.(instances := st.instances[id := rec.(fields := Put(rec.fields, name, v))])
  }

  /** A fresh instance, and its identity. */
  function AllocInstance(st: State, rec: Instance): (r: (State, nat))
    ensures r.1 == |st.instances| && r.0.instances == st.instances + [rec]
    ensures r.0.frames == st.frames && r.0.out == st.out
  {
    (st.(instances := st.instances + [rec]), |st.instances|)
  }

  /**
   * What every step of the evaluator keeps: frames and instances are only ever added, and an
   * instance keeps its struct and its field names.
   */
  predicate Grows(st: State, st': State)
  {
    |st.frames| <= |st'.frames| && |st.instances| <= |st'.instances|
    && forall k :: 0 <= k < |st.instances| ==>
      st'.instances[k].parent == st.instances[k].parent
      && Keys(st'.instances[k].fields) == Keys(st.instances[k].fields)
  }

  /**
   * Assigning the innermost binding of a name changes what every lookup of that name through the
   * stack sees to the new value, and changes no other lookup.
   */
  lemma WriteFound(st: State, stack: Stack, name: string, v: Value, other: string)
    requires Owner(st, stack, Symbols, name).Some?
    ensures var st' := WriteSymbol(st, stack[Owner(st, stack, Symbols, name).value], name, v);
      FindSymbol(st', stack, name) == v
      && (other != name ==> FindSymbol(st', stack, other) == FindSymbol(st, stack, other))
  {
    var k := Owner(st, stack, Symbols, name).value;
    var id := stack[k];
    var st' := WriteSymbol(st, id, name, v);
    var f := FrameAt(st, id);
    assert id < |st.frames| by {
      assert Owns(f, Symbols, name);
      assert Keys(EmptyFrame.symbols) == [];
    }
    PutGet(f.symbols, name, v, name);
    GetHas(f.symbols, name);
    GetHas(FrameAt(st', id).symbols, name);
    OwnerAfterPut(st, stack, id, name, v, name, |stack|);
    FindSymbolSpec(st', stack, name);
    if other != name {
      OwnerAfterPut(st, stack, id, name, v, other, |stack|);
      forall j | 0 <= j < |stack| && stack[j] == id
        ensures Get(FrameAt(st', id).symbols, other) == Get(f.symbols, other)
      {
        PutGet(f.symbols, name, v, other);
      }
      FindSymbolSpec(st, stack, other);
      FindSymbolSpec(st', stack, other);
      PutGet(f.symbols, name, v, other);
    }
  }

  /**
   * Declaring a name in the innermost frame makes every lookup of it through the stack see the
   * new value, whatever outer frames bind it, and changes no other lookup.
   */
  lemma DeclareFound(st: State, stack: Stack, name: string, v: Value, other: string)
    requires |stack| > 0 && stack[|stack| - 1] < |st.frames|
    ensures var st' := WriteSymbol(st, stack[|stack| - 1], name, v);
      FindSymbol(st', stack, name) == v
      && (other != name ==> FindSymbol(st', stack, other) == FindSymbol(st, stack, other))
  {
    var id := stack[|stack| - 1];
    var st' := WriteSymbol(st, id, name, v);
    var f := FrameAt(st, id);
    PutKeys(f.symbols, name, v);
    PutGet(f.symbols, name, v, name);
    TopLookup(st', stack, name);
    if other != name {
      OwnerAfterPut(st, stack, id, name, v, other, |stack|);
      PutGet(f.symbols, name, v, other);
      FindSymbolSpec(st, stack, other);
      FindSymbolSpec(st', stack, other);
    }
  }

  /**
   * Writing a name that a frame already owns leaves every frame owning the same names; writing a
   * new one changes the owners of that name alone.
   */
  lemma {:induction false} OwnerAfterPut(st: State, stack: Stack, id: nat, name: string, v: Value, other: string, n: nat)
    requires n <= |stack| && id < |st.frames| && (Has(FrameAt(st, id).symbols, name) || other != name)
    ensures var st' := WriteSymbol(st, id, name, v);
      OwnerBelow(st', stack, Symbols, other, n) == OwnerBelow(st, stack, Symbols, other, n)
  {
    var f := FrameAt(st, id);
    PutKeys(f.symbols, name, v);
    if n > 0 {
      OwnerAfterPut(st, stack, id, name, v, other, n - 1);
    }
  }

  /** A fresh frame that does not own `name` changes no lookup of it below. */
  lemma {:induction false} PushTransparent(st: State, stack: Stack, f: Frame, sp: Space, name: string, n: nat)
    requires n <= |stack| && !Owns(f, sp, name)
    ensures var (st', id) := Alloc(st, f);
      OwnerBelow(st', Tail(stack, id), sp, name, n) == OwnerBelow(st, stack, sp, name, n)
  {
    var (st', id) := Alloc(st, f);
    if n > 0 {
      PushTransparent(st, stack, f, sp, name, n - 1);
      assert Tail(stack, id)[n - 1] == stack[n - 1];
    }
  }

  /**
   * Hence a symbol lookup through a fresh frame that does not bind the name finds what it found
   * before: the callee of a call sees the caller's bindings.
   */
  lemma PushedLookup(st: State, stack: Stack, f: Frame, name: string)
    requires !Has(f.symbols, name)
    ensures var (st', id) := Alloc(st, f);
      FindSymbol(st', Tail(stack, id), name) == FindSymbol(st, stack, name)
  {
    var (st', id) := Alloc(st, f);
    PushTransparent(st, stack, f, Symbols, name, |stack|);
    var s' := Tail(stack, id);
    assert !Owns(FrameAt(st', s'[|stack|]), Symbols, name);
    assert OwnerBelow(st', s', Symbols, name, |s'|) == OwnerBelow(st', s', Symbols, name, |stack|);
    var o := OwnerBelow(st, stack, Symbols, name, |stack|);
    if o.Some? {
      assert s'[o.value] == stack[o.value];
    }
  }

  /** Lookups read the frames alone: a state with the same frames finds the same owners. */
  lemma {:induction false} SameFramesOwner(st: State, st': State, stack: Stack, sp: Space, name: string, n: nat)
    requires n <= |stack| && st'.frames == st.frames
    ensures OwnerBelow(st', stack, sp, name, n) == OwnerBelow(st, stack, sp, name, n)
  {
    if n > 0 {
      SameFramesOwner(st, st', stack, sp, name, n - 1);
    }
  }

  /** Hence a state with the same frames finds the same symbols. */
  lemma SameFramesLookup(st: State, st': State, stack: Stack, name: string)
    requires st'.frames == st.frames
    ensures FindSymbol(st', stack, name) == FindSymbol(st, stack, name)
  {
    SameFramesOwner(st, st', stack, Symbols, name, |stack|);
  }

  /** A lookup of a name the innermost frame binds finds that binding. */
  lemma TopLookup(st: State, stack: Stack, name: string)
    requires |stack| > 0 && Has(FrameAt(st, stack[|stack| - 1]).symbols, name)
    ensures Get(FrameAt(st, stack[|stack| - 1]).symbols, name) == Some(FindSymbol(st, stack, name))
  {
    assert Owner(st, stack, Symbols, name) == Some(|stack| - 1);
    GetHas(FrameAt(st, stack[|stack| - 1]).symbols, name);
  }
}
