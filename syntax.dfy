// The parsed tree: the entries of a branch, first as the parser pushes them (terms) and then as the
// mangler folds them into instructions (src/parser.js, src/mangle.js).

module Syntax {

  import opened Errors
  import opened Assoc
  import K = Kinds

  /** How `distribute_args` fills a parameter: by its kind tag SELF or LHS, or from the next argument. */
  datatype ParamKind = SelfParam | LhsParam | Positional

  datatype Param = Param(name: string, kind: ParamKind)

  /** A step of an expression in postfix order: an operand term or an operator tag. */
  datatype Step = Operand(instr: Instr) | Apply(op: K.Op)

  /** A field of a struct definition; `default` is None where the source stores `null`. */
  datatype Field = Field(name: string, default: Option<Instr>, pos: Pos)

  /** The kinds of the terms `parse_body` pushes through its default branch. */
  predicate IsKeywordKind(k: K.Kind)
  {
    k == K.NextElement || k == K.Define || k == K.Arrow || k == K.Let
    || k == K.Separator || k == K.Struct || k == K.MemberAccessor
  }

  type KeywordKind = k: K.Kind | IsKeywordKind(k) witness K.NextElement

  datatype Instr =
      // Terms pushed by `parse_body`.
    | Symbol(name: string, pos: Pos)
    | Pattern(name: string, pos: Pos)
    | Typename(name: string, pos: Pos)
    | String(text: string, pos: Pos)
      /** A number literal; `word` is its source text, whose value is `+word`. */
    | Number(word: string, pos: Pos)
    | Boolean(state: bool, pos: Pos)
    | Operator(op: K.Op, pos: Pos)
      /** A punctuation or keyword term whose kind is that of its matcher (`;`, `:`, `=>`, `let`, `,`, `struct`, `.`). */
    | Keyword(kind: KeywordKind, pos: Pos)
      /** A nested tuple, already mangled; `length` is its arity. */
    | Tuple(body: seq<Instr>, length: nat, pos: Pos)
    | Block(body: seq<Instr>, pos: Pos)
      // Instructions built by the mangler.
      /** A function literal; the source gives it no line and column. */
    | Function(params: seq<Param>, code: Instr, isMethod: bool)
      /** `pattern` is the called pattern's name; its term stands where the call does. */
    | PatternCall(pattern: string, args: Instr, pos: Pos)
    | FunctionCall(fn: Instr, args: Instr, pos: Pos)
      /** `operator` is absent for a unary expression. */
    | Expression(steps: seq<Step>, operator: Option<K.Op>, pos: Pos)
      /** `name` is the symbol on the left; `pos` is that symbol's. */
    | DefineSymbol(name: string, right: Instr, pos: Pos)
    | DefineComplex(left: Instr, right: Instr, pos: Pos)
    | DefinePattern(name: string, params: seq<Param>, code: Instr, isMethod: bool, pos: Pos)
      /** `owner` (the parent) and `key` (the member) are absent when the left side was a `.` the accessor pass left unfolded. */
    | DefineMember(owner: Option<Instr>, key: Option<Instr>, right: Instr, pos: Pos)
    | DeclareSymbol(name: string, init: Option<Instr>, pos: Pos)
      /** A struct definition: its fields and its methods (DefinePattern entries), keyed by name. */
    | Struct(name: string, fields: Entries<Field>, methods: Entries<Instr>, pos: Pos)
    | StructInit(name: string, ctor: string, args: Instr, pos: Pos)
    | MemberAccessor(parent: Instr, member: Instr, pos: Pos)

  /** The `kind` tag of an entry. */
  function KindOf(i: Instr): (r: K.Kind)
    ensures r != K.Array
    ensures r == K.Tuple <==> i.Tuple?
    ensures r == K.Block <==> i.Block?
  {
    match i
    case Symbol(_, _) => K.Symbol
    case Pattern(_, _) => K.Pattern
    case Typename(_, _) => K.Typename
    case String(_, _) => K.String
    case Number(_, _) => K.Number
    case Boolean(_, _) => K.Boolean
    case Operator(_, _) => K.Operator
    case Keyword(k, _) => k
    case Tuple(_, _, _) => K.Tuple
    case Block(_, _) => K.Block
    case Function(_, _, _) => K.Function
    case PatternCall(_, _, _) => K.PatternCall
    case FunctionCall(_, _, _) => K.FunctionCall
    case Expression(_, _, _) => K.Expression
    case DefineSymbol(_, _, _) => K.DefineSymbol
    case DefineComplex(_, _, _) => K.DefineComplex
    case DefinePattern(_, _, _, _, _) => K.DefinePattern
    case DefineMember(_, _, _, _) => K.DefineMember
    case DeclareSymbol(_, _, _) => K.DeclareSymbol
    case Struct(_, _, _, _) => K.Struct
    case StructInit(_, _, _, _) => K.StructInit
    case MemberAccessor(_, _, _) => K.MemberAccessor
  }

  /** The `line` and `char` of an entry. */
  function PosOf(i: Instr): Pos
  {
    if i.Function? then NoPos else i.pos
  }

  predicate IsKeyword(i: Instr, k: K.Kind)
  {
    i.Keyword? && i.kind == k
  }

  /** The parse options: the file itself is parsed as a block. */
  datatype Ctx = FileCtx | TupleCtx | BlockCtx

  /** `ctx_kind`, as it appears in error messages. */
  function CtxName(c: Ctx): string
  {
    match c
    case FileCtx => "file"
    case TupleCtx => "tuple"
    case BlockCtx => "block"
  }

  predicate IsTupleCtx(c: Ctx) { c == TupleCtx }

  predicate IsBlockCtx(c: Ctx) { c != TupleCtx }
}
