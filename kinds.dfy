// The kind tags and operator tables of the language (src/kinds.js).

module Kinds {

  import opened Errors

  /** The operator tags OP_ADD .. OP_LTE. */
  datatype Op =
    | OpAdd | OpSub | OpMul | OpDiv | OpMod | OpAnd | OpOr | OpNot
    | OpEq | OpNeq | OpGt | OpGte | OpLt | OpLte

  /** The remaining kind tags; each JS Symbol becomes one constructor, so tags are pairwise distinct. */
  datatype Kind =
    | Tuple | String | Number | Boolean | Pattern | Array | NextElement
    | DefineSymbol | DefinePattern | DefineComplex | Define | Symbol | Typename
    | Operator | Arrow | Let | Struct | Separator | MemberAccessor | DefineMember
    | Interpretation | DefineInterpretation
    | FunctionCall | PatternCall | Expression | UnaryExpression | Function | Block
    | DeclareSymbol | StructInstance | StructInit | Type
    | Use | Load | Module | Raw | SelfArg | Lhs | NotFound

  /** The `description` of each tag, as used in error messages. */
  function KindName(k: Kind): string
  {
    match k
    case Tuple => "TUPLE"
    case String => "STRING"
    case Number => "NUMBER"
    case Boolean => "BOOLEAN"
    case Pattern => "PATTERN"
    case Array => "ARRAY"
    case NextElement => "NEXT_ELEMENT"
    case DefineSymbol => "DEFINE_SYMBOL"
    case DefinePattern => "DEFINE_PATTERN"
    case DefineComplex => "DEFINE_COMPLEX"
    case Define => "DEFINE"
    case Symbol => "SYMBOL"
    case Typename => "TYPENAME"
    case Operator => "OPERATOR"
    case Arrow => "ARROW"
    case Let => "LET"
    case Struct => "STRUCT"
    case Separator => "SEPARATOR"
    case MemberAccessor => "MEMBER_ACCESSOR"
    case DefineMember => "DEFINE_MEMBER"
    case Interpretation => "INTERPRETATION"
    case DefineInterpretation => "DEFINE_INTERPRETATION"
    case FunctionCall => "FUNCTION_CALL"
    case PatternCall => "PATTERN_CALL"
    case Expression => "EXPRESSION"
    case UnaryExpression => "UNARY_EXPRESSION"
    case Function => "FUNCTION"
    case Block => "BLOCK"
    case DeclareSymbol => "DECLARE_SYMBOL"
    case StructInstance => "STRUCT_INSTANCE"
    case StructInit => "STRUCT_INIT"
    case Type => "TYPE"
    case Use => "USE"
    case Load => "LOAD"
    case Module => "MODULE"
    case Raw => "RAW"
    case SelfArg => "SELF"
    case Lhs => "LHS"
    case NotFound => "NOT_FOUND"
  }

  function OpName(op: Op): string
  {
    match op
    case OpAdd => "OP_ADD"
    case OpSub => "OP_SUB"
    case OpMul => "OP_MUL"
    case OpDiv => "OP_DIV"
    case OpMod => "OP_MOD"
    case OpAnd => "OP_AND"
    case OpOr => "OP_OR"
    case OpNot => "OP_NOT"
    case OpEq => "OP_EQ"
    case OpNeq => "OP_NEQ"
    case OpGt => "OP_GT"
    case OpGte => "OP_GTE"
    case OpLt => "OP_LT"
    case OpLte => "OP_LTE"
  }

  const BinaryOps: seq<Op> :=
    [OpAdd, OpMul, OpSub, OpDiv, OpMod, OpAnd, OpOr, OpEq, OpNeq, OpGt, OpGte, OpLt, OpLte]

  const UnaryOps: seq<Op> := [OpNot]

  const Operators: seq<Op> := BinaryOps + UnaryOps

  /** Struct method names that overload an operator, in table order. */
  const OperatorEquivs: seq<(Op, string)> := [
    (OpAdd, "#add"), (OpMul, "#mul"), (OpSub, "#sub"), (OpDiv, "#div"), (OpMod, "#mod"),
    (OpAnd, "#and"), (OpOr, "#or"), (OpEq, "#eq"), (OpNeq, "#neq"), (OpGt, "#gt"),
    (OpGte, "#gte"), (OpLt, "#lt"), (OpLte, "#lte")
  ]

  /** Kinds that may stand as an operand of an expression. */
  const ValidExpTerms: seq<Kind> := [
    String, Number, Boolean, Array, Symbol, Tuple, FunctionCall, PatternCall, Expression,
    MemberAccessor, StructInit, DefineMember, DefineSymbol, DefineComplex
  ]

  predicate IsBinary(op: Op) { op in BinaryOps }

  predicate IsUnary(op: Op) { op in UnaryOps }

  predicate IsValidExpTerm(k: Kind) { k in ValidExpTerms }

  predicate NoDuplicates<T(==)>(s: seq<T>)
  {
    forall i, j :: 0 <= i < j < |s| ==> s[i] != s[j]
  }

  /** `OPERATOR_EQUIVS.find(([a, b]) => b === name)`: the first entry whose method name is `name`. */
  function EquivFrom(name: string, i: nat): (r: Option<Op>)
    requires i <= |OperatorEquivs|
    decreases |OperatorEquivs| - i
  {
    if i == |OperatorEquivs| then None
    else if OperatorEquivs[i].1 == name then Some(OperatorEquivs[i].0)
    else EquivFrom(name, i + 1)
  }

  function OperatorFor(name: string): Option<Op>
  {
    EquivFrom(name, 0)
  }

  /** The method name that overloads `op`, if any. */
  function MethodNameOf(op: Op): Option<string>
  {
    match op
    case OpAdd => Some("#add")
    case OpMul => Some("#mul")
    case OpSub => Some("#sub")
    case OpDiv => Some("#div")
    case OpMod => Some("#mod")
    case OpAnd => Some("#and")
    case OpOr => Some("#or")
    case OpEq => Some("#eq")
    case OpNeq => Some("#neq")
    case OpGt => Some("#gt")
    case OpGte => Some("#gte")
    case OpLt => Some("#lt")
    case OpLte => Some("#lte")
    case OpNot => None
  }

  /** OP_NOT is the only unary operator, every other operator is binary, and OPERATORS lists each once. */
  lemma OperatorsPartition(op: Op)
    ensures IsUnary(op) <==> op == OpNot
    ensures IsBinary(op) <==> op != OpNot
    ensures op in Operators
    ensures NoDuplicates(Operators)
  {
    match op
    case OpAdd => case OpSub => case OpMul => case OpDiv => case OpMod =>
    case OpAnd => case OpOr => case OpNot => case OpEq => case OpNeq =>
    case OpGt => case OpGte => case OpLt => case OpLte =>
  }

  /** Exactly the binary operators have a `#` method name. */
  lemma MethodNames(op: Op)
    ensures IsBinary(op) <==> MethodNameOf(op).Some?
    ensures MethodNameOf(op).Some? ==> |MethodNameOf(op).value| > 1 && MethodNameOf(op).value[0] == '#'
  {
    OperatorsPartition(op);
  }

  /** OPERATOR_EQUIVS maps each operator's method name back to that operator. */
  lemma {:induction false} EquivRoundTrip(op: Op)
    ensures MethodNameOf(op).Some? ==> OperatorFor(MethodNameOf(op).value) == Some(op)
  {
    match op
    case OpAdd => assert OperatorEquivs[0] == (OpAdd, "#add");
    case OpMul => assert OperatorEquivs[1] == (OpMul, "#mul");
    case OpSub => assert OperatorEquivs[2] == (OpSub, "#sub");
    case OpDiv => assert OperatorEquivs[3] == (OpDiv, "#div");
    case OpMod => assert OperatorEquivs[4] == (OpMod, "#mod");
    case OpAnd => assert OperatorEquivs[5] == (OpAnd, "#and");
    case OpOr => assert OperatorEquivs[6] == (OpOr, "#or");
    case OpEq => assert OperatorEquivs[7] == (OpEq, "#eq");
    case OpNeq => assert OperatorEquivs[8] == (OpNeq, "#neq");
    case OpGt => assert OperatorEquivs[9] == (OpGt, "#gt");
    case OpGte => assert OperatorEquivs[10] == (OpGte, "#gte");
    case OpLt => assert OperatorEquivs[11] == (OpLt, "#lt");
    case OpLte => assert OperatorEquivs[12] == (OpLte, "#lte");
    case OpNot =>
  }

  /** An operator found from position `i` on comes from an entry of the table at or after `i`. */
  lemma {:induction false} EquivFromSound(name: string, i: nat)
    requires i <= |OperatorEquivs|
    decreases |OperatorEquivs| - i
    ensures EquivFrom(name, i).Some? ==>
      exists j :: i <= j < |OperatorEquivs| && OperatorEquivs[j] == (EquivFrom(name, i).value, name)
  {
    if i < |OperatorEquivs| && OperatorEquivs[i].1 != name {
      EquivFromSound(name, i + 1);
    }
  }

  /** A name that OPERATOR_EQUIVS maps to an operator is that operator's method name. */
  lemma EquivSound(name: string)
    ensures OperatorFor(name).Some? ==> MethodNameOf(OperatorFor(name).value) == Some(name)
  {
    EquivFromSound(name, 0);
    if OperatorFor(name).Some? {
      var j :| 0 <= j < |OperatorEquivs| && OperatorEquivs[j] == (OperatorFor(name).value, name);
      assert j < 13;
    }
  }

  /** Keywords, punctuation and the plain name kinds are not expression operands. */
  lemma ValidExpTermsExclusions(k: Kind)
    requires k in {Operator, Define, Let, Arrow, Separator, NextElement, Struct, Pattern, Typename}
    ensures !IsValidExpTerm(k)
  {
    forall i | 0 <= i < |ValidExpTerms| ensures ValidExpTerms[i] != k {
    }
  }
}
