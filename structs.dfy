// Struct definitions and instances (src/struct.js): the Struct object the mangler builds, the
// operator table it derives from its method names, and the StructInstance record.

module Structs {

  import opened Errors
  import opened Assoc
  import opened Syntax
  import opened Values
  import K = Kinds

  /**
   * A Struct: its fields (`symbols`, each with an optional default), its methods (`patterns`,
   * DEFINE_PATTERN instructions) and `operators`, the methods that overload an operator.
   */
  datatype StructDef = StructDef(
    name: string,
    fields: Entries<Field>,
    methods: Entries<Instr>,
    operators: map<K.Op, Instr>,
    pos: Pos)

  /** A StructInstance: its Struct (`parent`) and its own field map (`symbols`). */
  datatype Instance = Instance(parent: StructDef, fields: Entries<Value>)

  /** The operator each method name overloads, method by method. */
  function Classify(methods: Entries<Instr>): (r: seq<Option<K.Op>>)
    ensures |r| == |methods|
  {
    if methods == [] then [] else [K.OperatorFor(methods[0].0)] + Classify(methods[1..])
  }

  lemma {:induction false} ClassifyAt(methods: Entries<Instr>, j: nat)
    requires j < |methods|
    ensures Classify(methods)[j] == K.OperatorFor(methods[j].0)
  {
    if j > 0 {
      ClassifyAt(methods[1..], j - 1);
    }
  }

  /** The operator table once the constructor's loop has visited the first `i` methods. */
  function TableUpTo(cls: seq<Option<K.Op>>, methods: Entries<Instr>, i: nat): map<K.Op, Instr>
    requires i <= |cls| == |methods|
  {
    if i == 0 then map[]
    else
      var prev := TableUpTo(cls, methods, i - 1);
      if cls[i - 1].Some? then prev[cls[i - 1].value := methods[i - 1].1] else prev
  }

  function OperatorTable(methods: Entries<Instr>): map<K.Op, Instr>
  {
    TableUpTo(Classify(methods), methods, |methods|)
  }

  /** `new Struct({name, symbols, patterns, line, char})`. */
  function NewStruct(name: string, fields: Entries<Field>, methods: Entries<Instr>, pos: Pos): StructDef
  {
    StructDef(name, fields, methods, OperatorTable(methods), pos)
  }

  /** The constructor's loop over the methods, filling `this.operators`. */
  method BuildOperators(methods: Entries<Instr>) returns (ops: map<K.Op, Instr>)
    ensures ops == OperatorTable(methods)
  {
    ops := map[];
    for i := 0 to |methods|
      invariant ops == TableUpTo(Classify(methods), methods, i)
    {
      var (name, pattern) := methods[i];
      var matching := K.OperatorFor(name);
      TableStep(methods, i);
      if matching.Some? {
        ops := ops[matching.value := pattern];
      }
    }
  }

  /** One more turn of the constructor's loop. */
  lemma TableStep(methods: Entries<Instr>, i: nat)
    requires i < |methods|
    ensures var m := K.OperatorFor(methods[i].0);
      var prev := TableUpTo(Classify(methods), methods, i);
      TableUpTo(Classify(methods), methods, i + 1) == if m.Some? then prev[m.value := methods[i].1] else prev
  {
    ClassifyAt(methods, i);
  }

  /** A method name overloads `op` exactly when it is the name OPERATOR_EQUIVS gives `op`. */
  lemma OverloadName(name: string, op: K.Op)
    ensures K.OperatorFor(name) == Some(op) <==> K.MethodNameOf(op) == Some(name)
  {
    K.EquivSound(name);
    K.EquivRoundTrip(op);
  }

  /** Two method names that overload the same operator are the same name. */
  lemma OverloadInjective(n1: string, n2: string, op: K.Op)
    requires K.OperatorFor(n1) == Some(op) && K.OperatorFor(n2) == Some(op)
    ensures n1 == n2
  {
    K.EquivSound(n1);
    K.EquivSound(n2);
  }

  lemma {:induction false} TableUpToSpec(cls: seq<Option<K.Op>>, methods: Entries<Instr>, i: nat, op: K.Op)
    requires i <= |cls| == |methods|
    requires forall j1, j2 :: 0 <= j1 < j2 < |cls| && cls[j1] == Some(op) ==> cls[j2] != Some(op)
    ensures op in TableUpTo(cls, methods, i) <==> exists j :: 0 <= j < i && cls[j] == Some(op)
    ensures forall j :: 0 <= j < i && cls[j] == Some(op) ==>
      op in TableUpTo(cls, methods, i) && TableUpTo(cls, methods, i)[op] == methods[j].1
  {
    if i > 0 {
      TableUpToSpec(cls, methods, i - 1, op);
    }
  }

  /** Two methods that overload the same operator have the same name. */
  lemma ClassifyInjective(methods: Entries<Instr>, o: K.Op, j1: nat, j2: nat)
    requires j1 < |methods| && j2 < |methods|
    requires Classify(methods)[j1] == Some(o) && Classify(methods)[j2] == Some(o)
    ensures methods[j1].0 == methods[j2].0
  {
    ClassifyAt(methods, j1);
    ClassifyAt(methods, j2);
    OverloadInjective(methods[j1].0, methods[j2].0, o);
  }

  /** Method `j` overloads `op` exactly when its name is `op`'s method name; none overloads `!`. */
  lemma ClassifyMeaning(methods: Entries<Instr>, j: nat, op: K.Op)
    requires j < |methods|
    ensures Classify(methods)[j] == Some(op) <==> K.MethodNameOf(op) == Some(methods[j].0)
    ensures Classify(methods)[j] != Some(K.OpNot)
  {
    ClassifyAt(methods, j);
    OverloadName(methods[j].0, op);
    OverloadName(methods[j].0, K.OpNot);
  }

  /**
   * A struct overloads `op` exactly when one of its methods bears the name OPERATOR_EQUIVS gives
   * `op`, and then the table entry is that method; `!` is never overloaded.
   */
  lemma OperatorTableExact(methods: Entries<Instr>, op: K.Op)
    requires Distinct(Keys(methods))
    ensures op in OperatorTable(methods) <==> exists j :: 0 <= j < |methods| && K.MethodNameOf(op) == Some(methods[j].0)
    ensures forall j :: 0 <= j < |methods| && K.MethodNameOf(op) == Some(methods[j].0) ==>
      op in OperatorTable(methods) && OperatorTable(methods)[op] == methods[j].1
    ensures K.OpNot !in OperatorTable(methods)
  {
    var cls := Classify(methods);
    forall o: K.Op, j1, j2 | 0 <= j1 < j2 < |cls| && cls[j1] == Some(o)
      ensures cls[j2] != Some(o)
    {
      if cls[j2] == Some(o) {
        ClassifyInjective(methods, o, j1, j2);
        assert false;
      }
    }


    TableUpToSpec(cls, methods, |methods|, op);
    TableUpToSpec(cls, methods, |methods|, K.OpNot);
    forall j | 0 <= j < |methods|
      ensures cls[j] == Some(op) <==> K.MethodNameOf(op) == Some(methods[j].0)
      ensures cls[j] != Some(K.OpNot)
    {
      ClassifyMeaning(methods, j, op);
    }
  }
}
