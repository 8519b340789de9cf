// The prelude module of src/prelude.js as the evaluator sees it: the outermost frame every program
// starts from, and the parameter lists and bodies of the two prelude patterns that are run as
// ordinary patterns (`'version` and `#break`) rather than by a host function.

module Prelude {

  import opened Errors
  import opened Assoc
  import opened Syntax
  import opened Values
  import opened Contexts
  import K = Kinds

  /** `prelude.patterns`, in their order of definition. */
  const PreludePatterns: Entries<Value> := [
    ("'println", Prim(PrintLn)), ("'print", Prim(Print)), ("'version", Prim(Version)),
    ("#if", Prim(If)), ("#for", Prim(For)), ("#while", Prim(While)), ("'ident", Prim(Ident)),
    ("#break", Prim(Break)), ("#error", Prim(Raise))]

  /**
   * The prelude module used as a frame: its symbols hold only `__break`, it has no structs, and,
   * being no Context, it has no `last_value` at all.
   */
  const PreludeFrame := Frame([("__break", BreakSym)], PreludePatterns, [], Undefined)

  /** The identity of the prelude frame in every state the evaluator starts from. */
  const PreludeId: nat := 0

  /** The state a program starts in: the prelude frame alone, no instances, no output. */
  const InitialState := State([PreludeFrame], [], "")

  /** The body of `#break`: the tuple `(__break; __value)`. */
  const BreakBody: seq<Instr> := [
    Tuple([Symbol("__break", NoPos), Keyword(K.NextElement, NoPos), Symbol("__value", NoPos)], 2, NoPos)]

  /** The body of `'version`. */
  const VersionBody: seq<Instr> := [String("0.0.2", NoPos)]

  /** `Array.isArray(result) && result[0] === prelude.symbols.__break`. */
  predicate IsBreak(v: Value)
  {
    v.Arr? && |v.items| > 0 && v.items[0] == BreakSym
  }

  /** `fn.args`, as call_raw reads it for the callee. */
  function ParamsOf(f: Value): Result<seq<Param>>
  {
    match f
    case Fn(params, _, _) => Ok(params)
    case Pat(_, params, _, _, _) => Ok(params)
    case Prim(Break) => Ok([Param("__value", Positional)])
    case Prim(Version) => Ok([])
    case _ => Err(HostError("raw_args is not iterable"))
  }

  /** `fn.body.instructions`, as `interpreter` reads it for the callee. */
  function BodyOf(f: Value): Result<seq<Instr>>
  {
    match f
    case Fn(_, code, _) => CodeBody(code)
    case Pat(_, _, code, _, _) => CodeBody(code)
    case Prim(Break) => Ok(BreakBody)
    case Prim(Version) => Ok(VersionBody)
    case _ => Err(HostError("Cannot read properties of undefined (reading 'instructions')"))
  }

  /** The entries of a function's code, which the mangler makes a BLOCK or a TUPLE. */
  function CodeBody(code: Instr): Result<seq<Instr>>
  {
    match code
    case Block(body, _) => Ok(body)
    case Tuple(body, _, _) => Ok(body)
    case _ => Err(HostError("branch.instructions is not iterable"))
  }

  /** In the initial state, `__break` names the break symbol. */
  lemma PreludeNames()
    ensures FindSymbol(InitialState, [PreludeId], "__break") == BreakSym
  {
    assert Keys(PreludeFrame.symbols)[0] == "__break";
  }
}
