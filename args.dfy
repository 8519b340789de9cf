// Argument passing of call_raw (src/interpreter.js): distribute_args, which lines the evaluated
// arguments up with a callee's parameters, and the loop that binds them in the callee's frame.

module Arguments {

  import opened Errors
  import opened Assoc
  import opened Syntax
  import opened Values

  /** `options.instance || null`: what a SELF parameter receives. */
  function SelfValue(inst: Value): (r: Value)
    ensures Truthy(inst) ==> r == inst
    ensures !Truthy(inst) ==> r == Null
  {
    if Truthy(inst) then inst else Null
  }

  /**
   * The values and the count of arguments consumed once distribute_args has visited the first
   * `k` parameters. `lhs` is the `last_value` of the caller's top frame, an error where the stack
   * is empty; it is read only for an LHS parameter.
   */
  function DistributeUpTo(params: seq<Param>, args: seq<Value>, lhs: Result<Value>, inst: Value, pos: Pos, k: nat)
    : Result<(seq<Value>, nat)>
    requires k <= |params|
  {
    if k == 0 then Ok(([], 0))
    else
      var acc :- DistributeUpTo(params, args, lhs, inst, pos, k - 1);
      DistributeOne(params[k - 1], args, lhs, inst, pos, acc.0, acc.1)
  }

  /** One turn of the loop: the value parameter `p` receives, after `n` arguments were consumed. */
  function DistributeOne(p: Param, args: seq<Value>, lhs: Result<Value>, inst: Value, pos: Pos, res: seq<Value>, n: nat)
    : Result<(seq<Value>, nat)>
  {
    match p.kind
    case SelfParam => Ok((res + [SelfValue(inst)], n))
    case LhsParam => var l :- lhs; Ok((res + [l], n))
    case Positional =>
      if n >= |args| then Err(RuntimeError("Not enough arguments", pos))
      else Ok((res + [args[n]], n + 1))
  }

  /** distribute_args: one value per parameter. Surplus arguments are ignored. */
  function Distribute(params: seq<Param>, args: seq<Value>, lhs: Result<Value>, inst: Value, pos: Pos)
    : (r: Result<seq<Value>>)
    ensures r.Ok? ==> |r.value| == |params|
  {
    DistributeSpec(params, args, lhs, inst, pos, |params|);
    var acc :- DistributeUpTo(params, args, lhs, inst, pos, |params|);
    Ok(acc.0)
  }

  /** The loop of distribute_args. */
  method DistributeArgs(params: seq<Param>, args: seq<Value>, lhs: Result<Value>, inst: Value, pos: Pos)
    returns (r: Result<seq<Value>>)
    ensures r == Distribute(params, args, lhs, inst, pos)
  {
    var n := 0;
    var res := [];
    for k := 0 to |params|
      invariant DistributeUpTo(params, args, lhs, inst, pos, k) == Ok((res, n))
    {
      assert DistributeUpTo(params, args, lhs, inst, pos, k + 1) == DistributeOne(params[k], args, lhs, inst, pos, res, n);
      match params[k].kind {
        case SelfParam =>
          res := res + [SelfValue(inst)];
        case LhsParam =>
          if lhs.Err? {
            DistributeErrPersists(params, args, lhs, inst, pos, k + 1, |params|);
            return Err(lhs.error);
          }
          res := res + [lhs.value];
        case Positional =>
          if n >= |args| {
            DistributeErrPersists(params, args, lhs, inst, pos, k + 1, |params|);
            return Err(RuntimeError("Not enough arguments", pos));
          }
          res := res + [args[n]];
          n := n + 1;
      }
    }
    return Ok(res);
  }

  /** How many of the first `k` parameters are filled from the argument list. */
  function PositionalBefore(params: seq<Param>, k: nat): nat
    requires k <= |params|
  {
    if k == 0 then 0 else PositionalBefore(params, k - 1) + (if params[k - 1].kind == Positional then 1 else 0)
  }

  predicate HasLhsBefore(params: seq<Param>, k: nat)
    requires k <= |params|
  {
    exists j :: 0 <= j < k && params[j].kind == LhsParam
  }

  /** Parameter `j` receives `v`: by its kind, the instance (or null), the caller's last value, or its argument. */
  predicate Receives(params: seq<Param>, args: seq<Value>, lhs: Result<Value>, inst: Value, j: nat, v: Value)
    requires j < |params|
  {
    match params[j].kind
    case SelfParam => v == SelfValue(inst)
    case LhsParam => lhs.Ok? && v == lhs.value
    case Positional => PositionalBefore(params, j) < |args| && v == args[PositionalBefore(params, j)]
  }

  /** Once the distribution fails it stays failed, with the same error. */
  lemma {:induction false} DistributeErrPersists(params: seq<Param>, args: seq<Value>, lhs: Result<Value>, inst: Value, pos: Pos, k: nat, m: nat)
    requires k <= m <= |params|
    requires DistributeUpTo(params, args, lhs, inst, pos, k).Err?
    ensures DistributeUpTo(params, args, lhs, inst, pos, m) == DistributeUpTo(params, args, lhs, inst, pos, k)
    decreases m - k
  {
    if k < m {
      DistributeErrPersists(params, args, lhs, inst, pos, k, m - 1);
    }
  }

  lemma {:induction false} PositionalBound(params: seq<Param>, j: nat)
    requires j < |params| && params[j].kind == Positional
    ensures PositionalBefore(params, j) < PositionalBefore(params, |params|)
  {
    PositionalMonotone(params, j + 1, |params|);
  }

  lemma {:induction false} PositionalMonotone(params: seq<Param>, i: nat, k: nat)
    requires i <= k <= |params|
    ensures PositionalBefore(params, i) <= PositionalBefore(params, k)
    decreases k - i
  {
    if i < k {
      PositionalMonotone(params, i, k - 1);
    }
  }

  /**
   * The distribution succeeds exactly when there are enough arguments for the positional
   * parameters and, if there is an LHS parameter, the caller's stack has a top frame; the
   * n-th positional parameter then receives the n-th argument, a SELF parameter the instance (or
   * null) and an LHS parameter the caller's last value.
   */
  lemma {:induction false} DistributeSpec(params: seq<Param>, args: seq<Value>, lhs: Result<Value>, inst: Value, pos: Pos, k: nat)
    requires k <= |params|
    ensures var r := DistributeUpTo(params, args, lhs, inst, pos, k);
      r.Ok? <==> PositionalBefore(params, k) <= |args| && (HasLhsBefore(params, k) ==> lhs.Ok?)
    ensures var r := DistributeUpTo(params, args, lhs, inst, pos, k);
      r.Ok? ==> (|r.value.0| == k && r.value.1 == PositionalBefore(params, k)
        && forall j :: 0 <= j < k ==> Receives(params, args, lhs, inst, j, r.value.0[j]))
    ensures var r := DistributeUpTo(params, args, lhs, inst, pos, k);
      r.Err? ==> r.error == RuntimeError("Not enough arguments", pos) || (lhs.Err? && r.error == lhs.error)
  {
    if k > 0 {
      DistributeSpec(params, args, lhs, inst, pos, k - 1);
      var prev := DistributeUpTo(params, args, lhs, inst, pos, k - 1);
      if HasLhsBefore(params, k) && !HasLhsBefore(params, k - 1) {
        assert params[k - 1].kind == LhsParam;
      }
      if prev.Ok? {
        DistributeOneSpec(params, args, lhs, inst, pos, k - 1, prev.value.0, prev.value.1);
        var r := DistributeUpTo(params, args, lhs, inst, pos, k);
        if r.Ok? {
          forall j | 0 <= j < k
            ensures Receives(params, args, lhs, inst, j, r.value.0[j])
          {
            if j < k - 1 {
              assert r.value.0[j] == prev.value.0[j];
            }
          }
        }
      }
    }
  }

  /** One turn of the loop, for parameter `j` once the parameters before it have consumed their arguments. */
  lemma DistributeOneSpec(params: seq<Param>, args: seq<Value>, lhs: Result<Value>, inst: Value, pos: Pos, j: nat, res: seq<Value>, n: nat)
    requires j < |params| && n == PositionalBefore(params, j)
    ensures var r := DistributeOne(params[j], args, lhs, inst, pos, res, n);
      (r.Ok? <==> (params[j].kind == Positional ==> n < |args|) && (params[j].kind == LhsParam ==> lhs.Ok?))
      && (r.Ok? ==> (r.value.1 == PositionalBefore(params, j + 1) && |r.value.0| == |res| + 1
        && r.value.0[..|res|] == res && Receives(params, args, lhs, inst, j, r.value.0[|res|])))
      && (r.Err? ==> r.error == RuntimeError("Not enough arguments", pos) || (lhs.Err? && r.error == lhs.error))
  {
  }

  /** The frame of the callee: `new_ctx.symbols[params[n].name] = values[n]`, in order. */
  function BindUpTo(params: seq<Param>, vals: seq<Value>, k: nat): Entries<Value>
    requires k <= |params| == |vals|
  {
    if k == 0 then [] else Put(BindUpTo(params, vals, k - 1), params[k - 1].name, vals[k - 1])
  }

  function Bind(params: seq<Param>, vals: seq<Value>): Entries<Value>
    requires |params| == |vals|
  {
    BindUpTo(params, vals, |params|)
  }

  /** The binding loop of call_raw. */
  method BindParams(params: seq<Param>, vals: seq<Value>) returns (symbols: Entries<Value>)
    requires |params| == |vals|
    ensures symbols == Bind(params, vals)
  {
    symbols := [];
    for n := 0 to |params|
      invariant symbols == BindUpTo(params, vals, n)
    {
      symbols := Put(symbols, params[n].name, vals[n]);
    }
  }

  predicate DistinctNames(params: seq<Param>)
  {
    forall i, j :: 0 <= i < j < |params| ==> params[i].name != params[j].name
  }

  /**
   * In the callee's frame a parameter name is bound exactly when it names a parameter, and with
   * distinct names each parameter is bound to its own value.
   */
  lemma {:induction false} BindSpec(params: seq<Param>, vals: seq<Value>, k: nat, x: string)
    requires k <= |params| == |vals|
    ensures Get(BindUpTo(params, vals, k), x).Some? <==> exists j :: 0 <= j < k && params[j].name == x
    ensures DistinctNames(params) ==> forall j :: 0 <= j < k && params[j].name == x ==>
      Get(BindUpTo(params, vals, k), x) == Some(vals[j])
  {
    if k > 0 {
      BindSpec(params, vals, k - 1, x);
      PutGet(BindUpTo(params, vals, k - 1), params[k - 1].name, vals[k - 1], x);
    }
  }
}
