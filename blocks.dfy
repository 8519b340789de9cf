// What src/interpreter.js does with the entries of a branch before and while running them: the
// read-ahead of pattern and struct definitions into a block's fresh frame, and the slots of a
// TUPLE's elements array.

module Blocks {

  import opened Errors
  import opened Assoc
  import opened Syntax
  import opened Values
  import opened Structs
  import opened Contexts
  import K = Kinds

  // ----- Read-ahead -----

  /** A pattern definition whose name starts with `#`, which a block may not define. */
  predicate Reserved(i: Instr)
  {
    i.DefinePattern? && |i.name| > 0 && i.name[0] == '#'
  }

  /**
   * One turn of the read-ahead loop. The source throws a CompileError for a reserved name, but
   * `CompileError` is not in scope in src/interpreter.js, so what is thrown is a ReferenceError.
   */
  function HoistOne(f: Frame, i: Instr): Result<Frame>
  {
    if Reserved(i) then Err(HostError("CompileError is not defined"))
    else if i.DefinePattern? then Ok(f.(patterns := Put(f.patterns, i.name, PatternValue(i))))
    else if i.Struct? then Ok(f.(structs := Put(f.structs, i.name, NewStruct(i.name, i.fields, i.methods, i.pos))))
    else Ok(f)
  }

  /** The fresh frame once the first `k` entries are read ahead. */
  function HoistUpTo(body: seq<Instr>, k: nat): Result<Frame>
    requires k <= |body|
  {
    if k == 0 then Ok(EmptyFrame)
    else
      var f :- HoistUpTo(body, k - 1);
      HoistOne(f, body[k - 1])
  }

  /** The block's frame before its first instruction runs. */
  function Hoist(body: seq<Instr>): Result<Frame>
  {
    HoistUpTo(body, |body|)
  }

  /** The read-ahead loop at the head of `interpreter`. */
  method HoistDefinitions(body: seq<Instr>) returns (r: Result<Frame>)
    ensures r == Hoist(body)
  {
    var f := EmptyFrame;
    for k := 0 to |body|
      invariant HoistUpTo(body, k) == Ok(f)
    {
      var i := body[k];
      if i.DefinePattern? {
        if |i.name| > 0 && i.name[0] == '#' {
          HoistErrPersists(body, k + 1, |body|);
          return Err(HostError("CompileError is not defined"));
        }
        f := f.(patterns := Put(f.patterns, i.name, PatternValue(i)));
      } else if i.Struct? {
        f := f.(structs := Put(f.structs, i.name, NewStruct(i.name, i.fields, i.methods, i.pos)));
      }
    }
    return Ok(f);
  }

  lemma {:induction false} HoistErrPersists(body: seq<Instr>, k: nat, m: nat)
    requires k <= m <= |body| && HoistUpTo(body, k).Err?
    ensures HoistUpTo(body, m) == HoistUpTo(body, k)
    decreases m - k
  {
    if k < m {
      HoistErrPersists(body, k, m - 1);
    }
  }

  /** The read-ahead fails exactly when the block defines a `#` pattern. */
  lemma {:induction false} HoistRejects(body: seq<Instr>, k: nat)
    requires k <= |body|
    ensures HoistUpTo(body, k).Err? <==> exists j :: 0 <= j < k && Reserved(body[j])
    ensures HoistUpTo(body, k).Err? ==> HoistUpTo(body, k).error == HostError("CompileError is not defined")
  {
    if k > 0 {
      HoistRejects(body, k - 1);
      if HoistUpTo(body, k - 1).Ok? && !Reserved(body[k - 1]) {
        assert !exists j :: 0 <= j < k && Reserved(body[j]);
      }
    }
  }

  /** The value of the last definition of pattern `x` among the first `k` entries. */
  function LastPattern(body: seq<Instr>, k: nat, x: string): Option<Value>
    requires k <= |body|
  {
    if k == 0 then None
    else if body[k - 1].DefinePattern? && body[k - 1].name == x then Some(PatternValue(body[k - 1]))
    else LastPattern(body, k - 1, x)
  }

  /** The struct built from the last definition of struct `x` among the first `k` entries. */
  function LastStruct(body: seq<Instr>, k: nat, x: string): Option<StructDef>
    requires k <= |body|
  {
    if k == 0 then None
    else if body[k - 1].Struct? && body[k - 1].name == x then
      var i := body[k - 1];
      Some(NewStruct(i.name, i.fields, i.methods, i.pos))
    else LastStruct(body, k - 1, x)
  }

  /**
   * After the read-ahead, the block's frame holds no symbols and a null `last_value`; under each
   * name it holds the last pattern and the last struct the block defines under that name.
   */
  lemma {:induction false} HoistFinds(body: seq<Instr>, k: nat, x: string)
    requires k <= |body| && HoistUpTo(body, k).Ok?
    ensures var f := HoistUpTo(body, k).value;
      f.symbols == [] && f.last == Null
      && Get(f.patterns, x) == LastPattern(body, k, x)
      && Get(f.structs, x) == LastStruct(body, k, x)
  {
    if k > 0 {
      var prev := HoistUpTo(body, k - 1);
      HoistFinds(body, k - 1, x);
      var i := body[k - 1];
      if i.DefinePattern? {
        PutGet(prev.value.patterns, i.name, PatternValue(i), x);
      } else if i.Struct? {
        PutGet(prev.value.structs, i.name, NewStruct(i.name, i.fields, i.methods, i.pos), x);
      }
    }
  }

  // ----- Tuple slots -----

  /** A NEXT_ELEMENT marker, which moves a TUPLE on to its next slot. */
  predicate IsMarker(i: Instr)
  {
    IsKeyword(i, K.NextElement)
  }

  /** The slot of entry `k`: the number of markers before it. */
  function SlotOf(body: seq<Instr>, k: nat): nat
    requires k <= |body|
  {
    if k == 0 then 0 else SlotOf(body, k - 1) + (if IsMarker(body[k - 1]) then 1 else 0)
  }

  /** The length of the elements array once the first `k` entries are slotted: one past the slot of the last element so far. */
  function Width(body: seq<Instr>, k: nat): nat
    requires k <= |body|
  {
    if k == 0 then 0
    else if IsMarker(body[k - 1]) then Width(body, k - 1)
    else SlotOf(body, k - 1) + 1
  }

  /** `elements[n] = v` on a JavaScript array; the holes it opens read as undefined. */
  function SetSlot(elems: seq<Value>, n: nat, v: Value): (r: seq<Value>)
    ensures |r| == if n < |elems| then |elems| else n + 1
    ensures r[n] == v
    ensures forall s :: 0 <= s < |r| && s != n ==> r[s] == (if s < |elems| then elems[s] else Undefined)
  {
    if n < |elems| then elems[n := v]
    else elems + seq(n - |elems|, _ => Undefined) + [v]
  }

  /** Slots never go down, so the width never exceeds one past the current slot. */
  lemma {:induction false} WidthBound(body: seq<Instr>, k: nat)
    requires k <= |body|
    ensures Width(body, k) <= SlotOf(body, k) + 1
    ensures k > 0 && !IsMarker(body[k - 1]) ==> Width(body, k) == SlotOf(body, k) + 1
  {
    if k > 0 {
      WidthBound(body, k - 1);
    }
  }

  /** Slotting one more entry: a marker leaves the array alone, an element grows it to its slot. */
  lemma WidthStep(body: seq<Instr>, k: nat, elems: seq<Value>, v: Value)
    requires k < |body| && !IsMarker(body[k])
    ensures |elems| == Width(body, k) ==> |SetSlot(elems, SlotOf(body, k), v)| == Width(body, k + 1)
  {
    WidthBound(body, k);
  }

  /** `(a; b)` has two elements, `(a, b)` keeps only the last value in one slot, `(; a)` leaves a hole first. */
  lemma WidthExamples(a: Instr, b: Instr)
    requires !IsMarker(a) && !IsMarker(b)
    ensures Width([a, Keyword(K.NextElement, NoPos), b], 3) == 2
    ensures Width([a, b], 2) == 1
    ensures Width([Keyword(K.NextElement, NoPos), a], 2) == 2
  {
    var m := Keyword(K.NextElement, NoPos);
    assert IsMarker(m);
    assert SlotOf([a, m, b], 2) == 1 by { assert SlotOf([a, m, b], 1) == 0; }
    assert SlotOf([a, b], 1) == 0;
    assert SlotOf([m, a], 1) == 1;
  }
}
