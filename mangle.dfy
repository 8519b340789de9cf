// The mangler (src/mangle.js): eight passes over a branch's entries, each folding terms into
// instructions. Every pass is a loop over the entry list that re-reads the list after each
// `insert`; each is proved equal to a function that walks the list as (examined, unexamined).

module Mangle {

  import opened Errors
  import opened Assoc
  import opened Syntax
  import K = Kinds

  /** `insert`: the `length` entries from index `source` on are replaced by `x`. */
  function Insert(xs: seq<Instr>, x: Instr, source: nat, length: nat): (r: seq<Instr>)
    requires source + length <= |xs|
    ensures |r| == |xs| - length + 1
    ensures r[..source] == xs[..source] && r[source] == x && r[source + 1..] == xs[source + length..]
  {
    xs[..source] + [x] + xs[source + length..]
  }

  /** No entry of `xs` has kind `k`. */
  predicate NoKind(xs: seq<Instr>, k: K.Kind)
  {
    forall i :: 0 <= i < |xs| ==> KindOf(xs[i]) != k
  }

  /** Dropping the last entry and appending one of another kind keeps a kind out. */
  lemma NoKindReplaceLast(xs: seq<Instr>, drop: nat, x: Instr, k: K.Kind)
    requires NoKind(xs, k) && drop <= |xs| && KindOf(x) != k
    ensures NoKind(xs[..|xs| - drop] + [x], k)
  {
    var ys := xs[..|xs| - drop] + [x];
    forall i | 0 <= i < |ys|
      ensures KindOf(ys[i]) != k
    {
      if i < |xs| - drop {
        assert ys[i] == xs[i];
      }
    }
  }

  lemma NoKindAppend(xs: seq<Instr>, x: Instr, k: K.Kind)
    requires NoKind(xs, k) && KindOf(x) != k
    ensures NoKind(xs + [x], k)
  {
  }

  /** Message of the TypeError the host raises when a pass reads `.kind` past either end of the list. */
  const ReadPastEnd := "Cannot read properties of undefined (reading 'kind')"

  // ---------------------------------------------------------------- mangle_functions

  /** An entry allowed in a function's argument tuple: a symbol, a `;`, or the call `#self()`. */
  predicate IsSelfCall(i: Instr) { i.PatternCall? && i.pattern == "#self" }

  predicate IsArgEntry(i: Instr) { i.Symbol? || KindOf(i) == K.NextElement || IsSelfCall(i) }

  /** The parameters read from a tuple's entries, and whether `#self()` made the function a method. */
  function ParamsFrom(body: seq<Instr>, acc: seq<Param>, isMethod: bool): Result<(seq<Param>, bool)>
    decreases |body|
  {
    if body == [] then Ok((acc, isMethod))
    else
      var i := body[0];
      if i.Symbol? then ParamsFrom(body[1..], acc + [Param(i.name, Positional)], isMethod)
      else if KindOf(i) == K.NextElement then ParamsFrom(body[1..], acc, isMethod)
      else if IsSelfCall(i) then ParamsFrom(body[1..], acc + [Param("self", Positional)], true)
      else Err(CompileError("Invalid element in function argument tuple: " + K.KindName(KindOf(i)), PosOf(i)))
  }

  function ParamsOf(body: seq<Instr>): Result<(seq<Param>, bool)>
  {
    ParamsFrom(body, [], false)
  }

  /** The argument tuple `(#self(), x)` describes a method with two positional parameters, `self` then `x`. */
  lemma SelfThenSymbol(x: string, p: Pos, q: Pos)
    ensures ParamsOf([PatternCall("#self", Tuple([], 0, q), q), Symbol(x, p)])
      == Ok(([Param("self", Positional), Param(x, Positional)], true))
  {
    var body := [PatternCall("#self", Tuple([], 0, q), q), Symbol(x, p)];
    var selfOnly := [Param("self", Positional)];
    assert body[1..] == [Symbol(x, p)] && body[1..][1..] == [];
    assert [] + selfOnly == selfOnly && selfOnly + [Param(x, Positional)] == [Param("self", Positional), Param(x, Positional)];
    assert ParamsFrom(body, [], false) == ParamsFrom(body[1..], selfOnly, true);
    assert ParamsFrom(body[1..], selfOnly, true) == ParamsFrom([], selfOnly + [Param(x, Positional)], true);
  }

  predicate AllArgEntries(body: seq<Instr>)
  {
    forall j :: 0 <= j < |body| ==> IsArgEntry(body[j])
  }

  predicate HasSelfCall(body: seq<Instr>)
  {
    exists j :: 0 <= j < |body| && IsSelfCall(body[j])
  }

  /** The argument tuple is rejected exactly when one of its entries is not a symbol, `;` or `#self()`;
      otherwise the function is a method exactly when `#self()` appears, and there is one parameter per
      symbol or `#self()`, in order. */
  lemma {:induction false} ParamsFromSpec(body: seq<Instr>, acc: seq<Param>, isMethod: bool)
    ensures ParamsFrom(body, acc, isMethod).Err? <==> !AllArgEntries(body)
    ensures ParamsFrom(body, acc, isMethod).Ok? ==>
      (ParamsFrom(body, acc, isMethod).value.1 <==> isMethod || HasSelfCall(body))
    ensures ParamsFrom(body, acc, isMethod).Ok? ==>
      ParamsFrom(body, acc, isMethod).value.0 == acc + ParamNames(body)
    decreases |body|
  {
    if body != [] {
      var i := body[0];
      var head := if i.Symbol? then [Param(i.name, Positional)]
                  else if IsSelfCall(i) then [Param("self", Positional)] else [];
      var isMethod' := isMethod || IsSelfCall(i);
      assert acc + [] == acc;
      ParamsFromSpec(body[1..], acc + head, isMethod');
      EntriesCons(body);
      if IsArgEntry(i) {
        assert ParamsFrom(body, acc, isMethod) == ParamsFrom(body[1..], acc + head, isMethod');
        assert ParamNames(body) == head + ParamNames(body[1..]);
        Associative(acc, head, ParamNames(body[1..]));
      }
    }
  }

  lemma Associative<T>(a: seq<T>, b: seq<T>, c: seq<T>)
    ensures (a + b) + c == a + (b + c)
  {
  }

  /** Both quantified facts about an argument tuple split into its first entry and the rest. */
  lemma EntriesCons(body: seq<Instr>)
    requires body != []
    ensures AllArgEntries(body) <==> IsArgEntry(body[0]) && AllArgEntries(body[1..])
    ensures HasSelfCall(body) <==> IsSelfCall(body[0]) || HasSelfCall(body[1..])
  {
    assert forall j :: 0 < j < |body| ==> body[j] == body[1..][j - 1];
    if HasSelfCall(body[1..]) {
      var j :| 0 <= j < |body[1..]| && IsSelfCall(body[1..][j]);
      assert IsSelfCall(body[j + 1]);
    }
  }

  /** The parameter list an accepted argument tuple describes: each symbol by its name, `#self()` as `self`. */
  function ParamNames(body: seq<Instr>): seq<Param>
  {
    if body == [] then []
    else if body[0].Symbol? then [Param(body[0].name, Positional)] + ParamNames(body[1..])
    else if IsSelfCall(body[0]) then [Param("self", Positional)] + ParamNames(body[1..])
    else ParamNames(body[1..])
  }

  /** The `for ... of` loop of `mangle_functions` over the argument tuple. */
  method CollectParams(body: seq<Instr>) returns (r: Result<(seq<Param>, bool)>)
    ensures r == ParamsOf(body)
  {
    var params: seq<Param> := [];
    var isMethod := false;
    var i := 0;
    while i < |body|
      invariant i <= |body|
      invariant ParamsFrom(body[i..], params, isMethod) == ParamsOf(body)
    {
      var x := body[i];
      assert body[i..][1..] == body[i + 1..];
      if x.Symbol? {
        params := params + [Param(x.name, Positional)];
      } else if KindOf(x) == K.NextElement {
      } else if IsSelfCall(x) {
        isMethod := true;
        params := params + [Param("self", Positional)];
      } else {
        return Err(CompileError("Invalid element in function argument tuple: " + K.KindName(KindOf(x)), PosOf(x)));
      }
      i := i + 1;
    }
    return Ok((params, isMethod));
  }

  /** `mangle_functions` from the point where `done` has been examined and `rest` has not. */
  function FunctionsFrom(done: seq<Instr>, rest: seq<Instr>): Result<seq<Instr>>
    decreases |rest|
  {
    if rest == [] then Ok(done)
    else if KindOf(rest[0]) != K.Arrow then FunctionsFrom(done + [rest[0]], rest[1..])
    else if done == [] then Err(HostError(ReadPastEnd))
    else
      var prev := done[|done| - 1];
      if KindOf(prev) != K.Tuple && KindOf(prev) != K.Array then
        Err(CompileError("Invalid term preceding arrow (should be a tuple or an instruction)", PosOf(prev)))
      else if |rest| == 1 then Err(HostError(ReadPastEnd))
      else if KindOf(rest[1]) != K.Block && KindOf(rest[1]) != K.Tuple then
        Err(CompileError("Invalid term following arrow (should be a block or a tuple)", PosOf(rest[1])))
      else match ParamsOf(prev.body)
        case Err(e) => Err(e)
        case Ok((params, isMethod)) =>
          FunctionsFrom(done[..|done| - 1] + [Function(params, rest[1], isMethod)], rest[2..])
  }

  function Functions(xs: seq<Instr>): Result<seq<Instr>>
  {
    FunctionsFrom([], xs)
  }

  /** The error cases of one step of the arrow pass, over its own arguments. */
  lemma ArrowAt(done: seq<Instr>, rest: seq<Instr>)
    requires rest != [] && KindOf(rest[0]) == K.Arrow
    ensures done == [] ==> FunctionsFrom(done, rest) == Err(HostError(ReadPastEnd))
    ensures done != [] && !done[|done| - 1].Tuple? ==>
      FunctionsFrom(done, rest) == Err(CompileError("Invalid term preceding arrow (should be a tuple or an instruction)", PosOf(done[|done| - 1])))
    ensures done != [] && done[|done| - 1].Tuple? && |rest| == 1 ==>
      FunctionsFrom(done, rest) == Err(HostError(ReadPastEnd))
    ensures done != [] && done[|done| - 1].Tuple? && |rest| > 1 && !rest[1].Block? && !rest[1].Tuple? ==>
      FunctionsFrom(done, rest) == Err(CompileError("Invalid term following arrow (should be a block or a tuple)", PosOf(rest[1])))
  {
  }

  /** A `=>` with nothing before it, or with neither a tuple nor an array before it, fails. */
  lemma FunctionsBeforeError(instrs: seq<Instr>, n: nat)
    requires n < |instrs| && KindOf(instrs[n]) == K.Arrow
    ensures var r := FunctionsFrom(instrs[..n], instrs[n..]);
      (n == 0 ==> r == Err(HostError(ReadPastEnd)))
      && (n > 0 && !instrs[n - 1].Tuple? ==>
            r == Err(CompileError("Invalid term preceding arrow (should be a tuple or an instruction)", PosOf(instrs[n - 1]))))
  {
    var done, rest := instrs[..n], instrs[n..];
    assert rest[0] == instrs[n];
    if n > 0 {
      assert done[|done| - 1] == instrs[n - 1];
    }
    ArrowAt(done, rest);
  }

  /** A `=>` after a tuple with nothing after it, or with neither a block nor a tuple after it, fails. */
  lemma FunctionsAfterError(instrs: seq<Instr>, n: nat)
    requires 0 < n < |instrs| && KindOf(instrs[n]) == K.Arrow && instrs[n - 1].Tuple?
    ensures var r := FunctionsFrom(instrs[..n], instrs[n..]);
      (n + 1 == |instrs| ==> r == Err(HostError(ReadPastEnd)))
      && (n + 1 < |instrs| && !instrs[n + 1].Block? && !instrs[n + 1].Tuple? ==>
            r == Err(CompileError("Invalid term following arrow (should be a block or a tuple)", PosOf(instrs[n + 1]))))
  {
    var done, rest := instrs[..n], instrs[n..];
    assert rest[0] == instrs[n];
    assert done[|done| - 1] == instrs[n - 1];
    if n + 1 < |instrs| {
      assert rest[1] == instrs[n + 1];
    }
    ArrowAt(done, rest);
  }

  /** One fold of the arrow pass: `(params) => body` becomes a FUNCTION, examined next. */
  lemma FunctionsFoldStep(instrs: seq<Instr>, n: nat)
    requires 0 < n && n + 1 < |instrs| && KindOf(instrs[n]) == K.Arrow
    requires KindOf(instrs[n - 1]) == K.Tuple || KindOf(instrs[n - 1]) == K.Array
    requires KindOf(instrs[n + 1]) == K.Block || KindOf(instrs[n + 1]) == K.Tuple
    ensures var r := FunctionsFrom(instrs[..n], instrs[n..]);
      var ps := ParamsOf(instrs[n - 1].body);
      (ps.Err? ==> r == Err(ps.error))
      && (ps.Ok? ==>
            var j := Insert(instrs, Function(ps.value.0, instrs[n + 1], ps.value.1), n - 1, 3);
            r == FunctionsFrom(j[..n], j[n..]))
  {
    var done := instrs[..n];
    var rest := instrs[n..];
    assert rest[0] == instrs[n] && rest[1] == instrs[n + 1];
    assert done[|done| - 1] == instrs[n - 1];
    var ps := ParamsOf(instrs[n - 1].body);
    if ps.Ok? {
      var f := Function(ps.value.0, instrs[n + 1], ps.value.1);
      var j := Insert(instrs, f, n - 1, 3);
      assert j[..n] == done[..|done| - 1] + [f];
      assert j[n..] == rest[2..];
    }
  }

  /** One step of the arrow pass over an entry that is not `=>`. */
  lemma FunctionsSkipStep(instrs: seq<Instr>, n: nat)
    requires n < |instrs| && KindOf(instrs[n]) != K.Arrow
    ensures FunctionsFrom(instrs[..n], instrs[n..]) == FunctionsFrom(instrs[..n + 1], instrs[n + 1..])
  {
    assert instrs[n..][0] == instrs[n];
    assert instrs[..n + 1] == instrs[..n] + [instrs[n]];
    assert instrs[n + 1..] == instrs[n..][1..];
  }

  method MangleFunctions(xs: seq<Instr>) returns (r: Result<seq<Instr>>)
    ensures r == Functions(xs)
  {
    var instrs := xs;
    var n := 0;
    while n < |instrs|
      invariant n <= |instrs|
      invariant FunctionsFrom(instrs[..n], instrs[n..]) == Functions(xs)
    {
      if KindOf(instrs[n]) == K.Arrow {
        FunctionsBeforeError(instrs, n);
        if n == 0 {
          return Err(HostError(ReadPastEnd));
        }
        var prev := instrs[n - 1];
        if KindOf(prev) != K.Tuple && KindOf(prev) != K.Array {
          return Err(CompileError("Invalid term preceding arrow (should be a tuple or an instruction)", PosOf(prev)));
        }
        FunctionsAfterError(instrs, n);
        if n + 1 == |instrs| {
          return Err(HostError(ReadPastEnd));
        }
        var next := instrs[n + 1];
        if KindOf(next) != K.Block && KindOf(next) != K.Tuple {
          return Err(CompileError("Invalid term following arrow (should be a block or a tuple)", PosOf(next)));
        }
        FunctionsFoldStep(instrs, n);
        var params := CollectParams(prev.body);
        if params.Err? {
          return Err(params.error);
        }
        var f := Function(params.value.0, next, params.value.1);
        instrs := Insert(instrs, f, n - 1, 3);
        n := n - 1;
      } else {
        FunctionsSkipStep(instrs, n);
      }
      n := n + 1;
    }
    assert instrs[..n] == instrs && instrs[n..] == [];
    return Ok(instrs);
  }

  /** After the pass no `=>` is left: each one was folded into a FUNCTION with its neighbours. */
  lemma {:induction false} FunctionsNoArrow(done: seq<Instr>, rest: seq<Instr>)
    requires NoKind(done, K.Arrow)
    ensures FunctionsFrom(done, rest).Ok? ==> NoKind(FunctionsFrom(done, rest).value, K.Arrow)
    decreases |rest|
  {
    if rest != [] {
      if KindOf(rest[0]) != K.Arrow {
        NoKindReplaceLast(done, 0, rest[0], K.Arrow);
        assert done[..|done| - 0] == done;
        assert FunctionsFrom(done, rest) == FunctionsFrom(done + [rest[0]], rest[1..]);
        FunctionsNoArrow(done + [rest[0]], rest[1..]);
      } else {
        ArrowAt(done, rest);
        if done != [] && |rest| > 1 {
          var prev := done[|done| - 1];
          if prev.Tuple? && (rest[1].Block? || rest[1].Tuple?) && ParamsOf(prev.body).Ok? {
            var f := Function(ParamsOf(prev.body).value.0, rest[1], ParamsOf(prev.body).value.1);
            assert FunctionsFrom(done, rest) == FunctionsFrom(done[..|done| - 1] + [f], rest[2..]);
            NoKindReplaceLast(done, 1, f, K.Arrow);
            FunctionsNoArrow(done[..|done| - 1] + [f], rest[2..]);
          }
        }
      }
    }
  }

  // ---------------------------------------------------------------- mangle_struct

  /** The fields and methods read from a struct body: `let` declarations and pattern definitions,
      a later one replacing an earlier one of the same name in its original place. */
  function MembersFrom(body: seq<Instr>, fields: Entries<Field>, methods: Entries<Instr>): Result<(Entries<Field>, Entries<Instr>)>
    decreases |body|
  {
    if body == [] then Ok((fields, methods))
    else
      var i := body[0];
      if i.DeclareSymbol? then MembersFrom(body[1..], Put(fields, i.name, Field(i.name, i.init, i.pos)), methods)
      else if i.DefinePattern? then MembersFrom(body[1..], fields, Put(methods, i.name, i))
      else if KindOf(i) == K.NextElement then MembersFrom(body[1..], fields, methods)
      else Err(CompileError("Invalid term within a struct definition: " + K.KindName(KindOf(i)), PosOf(i)))
  }

  function MembersOf(body: seq<Instr>): Result<(Entries<Field>, Entries<Instr>)>
  {
    MembersFrom(body, [], [])
  }

  /** The `for ... of` loop of `mangle_struct` over the struct body. */
  method CollectMembers(body: seq<Instr>) returns (r: Result<(Entries<Field>, Entries<Instr>)>)
    ensures r == MembersOf(body)
  {
    var fields: Entries<Field> := [];
    var methods: Entries<Instr> := [];
    var i := 0;
    while i < |body|
      invariant i <= |body|
      invariant MembersFrom(body[i..], fields, methods) == MembersOf(body)
    {
      var x := body[i];
      assert body[i..][1..] == body[i + 1..];
      if x.DeclareSymbol? {
        fields := Put(fields, x.name, Field(x.name, x.init, x.pos));
      } else if x.DefinePattern? {
        methods := Put(methods, x.name, x);
      } else if KindOf(x) == K.NextElement {
      } else {
        return Err(CompileError("Invalid term within a struct definition: " + K.KindName(KindOf(x)), PosOf(x)));
      }
      i := i + 1;
    }
    return Ok((fields, methods));
  }

  /** The last `let` of `name` in a struct body, which is the declaration the struct keeps. */
  function LastDeclaration(body: seq<Instr>, name: string): Option<Field>
  {
    if body == [] then None
    else
      var last := body[|body| - 1];
      if last.DeclareSymbol? && last.name == name then Some(Field(name, last.init, last.pos))
      else LastDeclaration(body[..|body| - 1], name)
  }

  /** An accepted struct body keeps, for every field name, its last declaration, and no name twice. */
  lemma {:induction false} MembersFromFields(body: seq<Instr>, fields: Entries<Field>, methods: Entries<Instr>, name: string)
    requires Distinct(Keys(fields))
    requires MembersFrom(body, fields, methods).Ok?
    ensures Distinct(Keys(MembersFrom(body, fields, methods).value.0))
    ensures Get(MembersFrom(body, fields, methods).value.0, name) ==
      if LastDeclaration(body, name).Some? then LastDeclaration(body, name) else Get(fields, name)
    decreases |body|
  {
    if body != [] {
      var i := body[0];
      var fields' := if i.DeclareSymbol? then Put(fields, i.name, Field(i.name, i.init, i.pos)) else fields;
      var methods' := if i.DefinePattern? then Put(methods, i.name, i) else methods;
      if i.DeclareSymbol? {
        PutDistinct(fields, i.name, Field(i.name, i.init, i.pos));
        PutGet(fields, i.name, Field(i.name, i.init, i.pos), name);
      }
      MembersFromFields(body[1..], fields', methods', name);
      LastDeclarationCons(body, name);
    }
  }

  lemma {:induction false} LastDeclarationCons(body: seq<Instr>, name: string)
    requires body != []
    ensures LastDeclaration(body, name) ==
      if LastDeclaration(body[1..], name).Some? then LastDeclaration(body[1..], name)
      else if body[0].DeclareSymbol? && body[0].name == name then Some(Field(name, body[0].init, body[0].pos))
      else None
    decreases |body|
  {
    if |body| > 1 {
      assert body[1..][..|body[1..]| - 1] == body[..|body| - 1][1..];
      LastDeclarationCons(body[..|body| - 1], name);
    }
  }

  /** The checks `mangle_struct` makes on a `struct` keyword standing at index |done|, in the
      source's order; None when the keyword stands in `TypeName: struct {...}`. */
  function StructError(done: seq<Instr>, rest: seq<Instr>, ctx: Ctx): (r: Option<Error>)
    requires rest != []
    ensures r.None? <==> |rest| > 1 && |done| > 1 && KindOf(done[|done| - 1]) == K.Define
                         && done[|done| - 2].Typename? && rest[1].Block?
  {
    var n := |done|;
    var placed := |rest| > 1 && n > 1 && KindOf(done[n - 1]) == K.Define && done[n - 2].Typename? && rest[1].Block?;
    if placed then None
    else if |rest| == 1 then Some(CompileError("struct keyword at end of " + CtxName(ctx), PosOf(rest[0])))
    else if n <= 1 then Some(CompileError("struct keyword at start of " + CtxName(ctx), PosOf(rest[0])))
    else if KindOf(done[n - 1]) != K.Define then Some(CompileError("struct keyword not preceded by a `:`", PosOf(rest[0])))
    else if !done[n - 2].Typename? then
      Some(CompileError("struct keyword not preceded by a `TypeName` and a `:`", PosOf(rest[0])))
    else if !rest[1].Block? then
      Some(CompileError("Invalid term following a struct keyword: expected BLOCK", PosOf(rest[1])))
    else assert false; None
  }

  /** `mangle_struct` from the point where `done` has been examined and `rest` has not. After a
      struct is folded the loop index moves on by one in the shortened list, so the two entries
      after the struct are never examined. */
  function StructsFrom(done: seq<Instr>, rest: seq<Instr>, ctx: Ctx): Result<seq<Instr>>
    decreases |rest|
  {
    if rest == [] then Ok(done)
    else if KindOf(rest[0]) != K.Struct then StructsFrom(done + [rest[0]], rest[1..], ctx)
    else match StructError(done, rest, ctx)
      case Some(e) => Err(e)
      case None =>
        match MembersOf(rest[1].body)
        case Err(e) => Err(e)
        case Ok((fields, methods)) =>
          var n := |done|;
          var s := Struct(done[n - 2].name, fields, methods, PosOf(rest[0]));
          var after := rest[2..];
          var skip := if |after| < 2 then |after| else 2;
          StructsFrom(done[..n - 2] + [s] + after[..skip], after[skip..], ctx)
  }

  function Structs(xs: seq<Instr>, ctx: Ctx): Result<seq<Instr>>
  {
    StructsFrom([], xs, ctx)
  }

  method MangleStruct(xs: seq<Instr>, ctx: Ctx) returns (r: Result<seq<Instr>>)
    ensures r == Structs(xs, ctx)
  {
    var instrs := xs;
    var n: nat := 0;
    while n < |instrs|
      invariant n <= |instrs|
      invariant StructsFrom(instrs[..n], instrs[n..], ctx) == Structs(xs, ctx)
    {
      if KindOf(instrs[n]) == K.Struct {
        StructFoldStep(instrs, n, ctx);
        var e := StructError(instrs[..n], instrs[n..], ctx);
        if e.Some? {
          return Err(e.value);
        }
        var members := CollectMembers(instrs[n + 1].body);
        if members.Err? {
          return Err(members.error);
        }
        var s := Struct(instrs[n - 2].name, members.value.0, members.value.1, PosOf(instrs[n]));
        instrs := Insert(instrs, s, n - 2, 4);
        n := if |instrs| < n + 1 then |instrs| else n + 1;
      } else {
        StructSkipStep(instrs, n, ctx);
        n := n + 1;
      }
    }
    assert instrs[..n] == instrs;
    return Ok(instrs);
  }

  /** One step of the struct pass at a `struct` keyword: its error, the members' error, or the fold. */
  lemma StructFoldStep(instrs: seq<Instr>, n: nat, ctx: Ctx)
    requires n < |instrs| && KindOf(instrs[n]) == K.Struct
    ensures var r := StructsFrom(instrs[..n], instrs[n..], ctx);
      var e := StructError(instrs[..n], instrs[n..], ctx);
      (e.Some? ==> r == Err(e.value))
      && (e.None? ==>
            var ms := MembersOf(instrs[n + 1].body);
            (ms.Err? ==> r == Err(ms.error))
            && (ms.Ok? ==>
                  var s := Struct(instrs[n - 2].name, ms.value.0, ms.value.1, PosOf(instrs[n]));
                  var next := Insert(instrs, s, n - 2, 4);
                  var m := if |next| < n + 1 then |next| else n + 1;
                  r == StructsFrom(next[..m], next[m..], ctx)))
  {
    var done, rest := instrs[..n], instrs[n..];
    assert rest[0] == instrs[n];
    var e := StructError(done, rest, ctx);
    if e.None? {
      assert rest[1] == instrs[n + 1] && done[|done| - 2] == instrs[n - 2];
      var ms := MembersOf(instrs[n + 1].body);
      if ms.Ok? {
        var s := Struct(instrs[n - 2].name, ms.value.0, ms.value.1, PosOf(instrs[n]));
        StructStep(instrs, n, s);
      }
    }
  }

  /** One step of the struct pass over an entry that is not `struct`. */
  lemma StructSkipStep(instrs: seq<Instr>, n: nat, ctx: Ctx)
    requires n < |instrs| && KindOf(instrs[n]) != K.Struct
    ensures StructsFrom(instrs[..n], instrs[n..], ctx) == StructsFrom(instrs[..n + 1], instrs[n + 1..], ctx)
  {
    assert instrs[n..][0] == instrs[n];
    assert instrs[..n + 1] == instrs[..n] + [instrs[n]];
    assert instrs[n + 1..] == instrs[n..][1..];
  }

  /** The shortened list, split where the loop resumes, is the split `StructsFrom` recurses on. */
  lemma StructStep(instrs: seq<Instr>, n: nat, s: Instr)
    requires 2 <= n < |instrs| - 1
    ensures var after := instrs[n..][2..];
            var skip := if |after| < 2 then |after| else 2;
            var next := Insert(instrs, s, n - 2, 4);
            var m := if |next| < n + 1 then |next| else n + 1;
            next[..m] == instrs[..n][..n - 2] + [s] + after[..skip] && next[m..] == after[skip..]
  {
  }

  /** Entries other than `struct` are passed over. */
  lemma StructsPass(done: seq<Instr>, x: Instr, rest: seq<Instr>, ctx: Ctx)
    requires KindOf(x) != K.Struct
    ensures StructsFrom(done, [x] + rest, ctx) == StructsFrom(done + [x], rest, ctx)
  {
    assert ([x] + rest)[1..] == rest;
  }

  /** In `T: struct {} a b`, the two entries after the struct are never examined: a second
      `struct` keyword there survives the pass unfolded. */
  lemma StructSkipsTwo(t: string, p: Pos, ctx: Ctx)
    ensures var kw := Keyword(K.Struct, p);
            Structs([Typename(t, p), Keyword(K.Define, p), kw, Block([], p), kw, kw], ctx)
              == Ok([Struct(t, [], [], p), kw, kw])
  {
    var kw := Keyword(K.Struct, p);
    var done := [Typename(t, p), Keyword(K.Define, p)];
    var rest := [kw, Block([], p), kw, kw];
    StructsPass([], Typename(t, p), [Keyword(K.Define, p)] + rest, ctx);
    StructsPass([Typename(t, p)], Keyword(K.Define, p), rest, ctx);
    assert KindOf(done[|done| - 1]) == K.Define && done[0].Typename? && rest[1].Block?;
    assert StructError(done, rest, ctx).None?;
    assert MembersOf([]) == Ok(([], []));
    var after := rest[2..];
    assert after == [kw, kw] && after[2..] == [];
    assert done[..0] + [Struct(t, [], [], p)] + after[..2] == [Struct(t, [], [], p), kw, kw];
    assert StructsFrom(done, rest, ctx) == StructsFrom([Struct(t, [], [], p), kw, kw], [], ctx);
    assert [Typename(t, p)] + ([Keyword(K.Define, p)] + rest) == [Typename(t, p), Keyword(K.Define, p), kw, Block([], p), kw, kw];
    assert [] + [Typename(t, p)] == [Typename(t, p)] && [Typename(t, p)] + [Keyword(K.Define, p)] == done;
  }

  // ---------------------------------------------------------------- mangle_calls

  /** Entries that a following tuple turns into a call. */
  predicate IsCallee(i: Instr)
  {
    (i.Tuple? && i.length == 1) || i.FunctionCall? || i.PatternCall? || i.Symbol? || i.Pattern?
  }

  predicate IsArgs(i: Instr) { KindOf(i) == K.Tuple || KindOf(i) == K.Array }

  function CallOf(callee: Instr, args: Instr): Instr
  {
    if callee.Pattern? then PatternCall(callee.name, args, callee.pos)
    else FunctionCall(callee, args, PosOf(callee))
  }

  /** `mangle_calls`: the last entry is never examined, and a folded call is examined again so that
      `f(a)(b)` nests to the left. */
  function CallsFrom(done: seq<Instr>, rest: seq<Instr>): (r: seq<Instr>)
    decreases |rest|
  {
    if |rest| < 2 then done + rest
    else if IsCallee(rest[0]) && IsArgs(rest[1]) then CallsFrom(done, [CallOf(rest[0], rest[1])] + rest[2..])
    else CallsFrom(done + [rest[0]], rest[1..])
  }

  function Calls(xs: seq<Instr>): seq<Instr>
  {
    CallsFrom([], xs)
  }

  method MangleCalls(xs: seq<Instr>) returns (r: seq<Instr>)
    ensures r == Calls(xs)
  {
    var instrs := xs;
    var n := 0;
    while n < |instrs| - 1
      invariant n <= |instrs|
      invariant CallsFrom(instrs[..n], instrs[n..]) == Calls(xs)
    {
      var c := instrs[n];
      if IsCallee(c) && IsArgs(instrs[n + 1]) {
        var call := CallOf(c, instrs[n + 1]);
        assert Insert(instrs, call, n, 2)[..n] == instrs[..n];
        assert Insert(instrs, call, n, 2)[n..] == [call] + instrs[n..][2..];
        instrs := Insert(instrs, call, n, 2);
      } else {
        assert instrs[..n + 1] == instrs[..n] + [instrs[n]];
        assert instrs[n + 1..] == instrs[n..][1..];
        n := n + 1;
      }
    }
    assert instrs[..n] + instrs[n..] == instrs;
    return instrs;
  }

  /** No adjacent pair `callee (tuple)` is left unfolded. */
  predicate NoCallPair(xs: seq<Instr>)
  {
    forall i :: 0 <= i < |xs| - 1 ==> !(IsCallee(xs[i]) && IsArgs(xs[i + 1]))
  }

  lemma {:induction false} CallsFolded(done: seq<Instr>, rest: seq<Instr>)
    requires NoCallPair(done)
    requires done != [] && rest != [] ==> !(IsCallee(done[|done| - 1]) && IsArgs(rest[0]))
    ensures NoCallPair(CallsFrom(done, rest))
    decreases |rest|
  {
    if |rest| >= 2 {
      if IsCallee(rest[0]) && IsArgs(rest[1]) {
        CallsFolded(done, [CallOf(rest[0], rest[1])] + rest[2..]);
      } else {
        CallsFolded(done + [rest[0]], rest[1..]);
      }
    }
  }

  /** `f(a)(b)` calls the result of `f(a)` with `b`. */
  lemma CallsNestLeft(f: Instr, a: Instr, b: Instr)
    requires IsCallee(f) && a.Tuple? && b.Tuple?
    ensures Calls([f, a, b]) == [FunctionCall(CallOf(f, a), b, PosOf(f))]
  {
    assert [f, a, b][2..] == [b];
    assert [CallOf(f, a), b][2..] == [];
    assert IsArgs(a) && [CallOf(f, a)] + [f, a, b][2..] == [CallOf(f, a), b];
    assert CallsFrom([], [f, a, b]) == CallsFrom([], [CallOf(f, a), b]);
    assert IsCallee(CallOf(f, a)) && IsArgs(b);
    assert [CallOf(CallOf(f, a), b)] + [CallOf(f, a), b][2..] == [CallOf(CallOf(f, a), b)];
    assert CallsFrom([], [CallOf(f, a), b]) == CallsFrom([], [CallOf(CallOf(f, a), b)]);
  }

  // ---------------------------------------------------------------- mangle_accessors

  /** Message of the ReferenceError raised when a `.` stands first or last: the source names an
      undeclared `option` while building its error. */
  const UndeclaredOption := "option is not defined"

  predicate AccessorParent(i: Instr)
  {
    KindOf(i) == K.PatternCall || KindOf(i) == K.Tuple || KindOf(i) == K.Symbol || KindOf(i) == K.Typename
  }

  predicate AccessorMember(i: Instr)
  {
    KindOf(i) == K.Symbol || KindOf(i) == K.PatternCall || KindOf(i) == K.FunctionCall
  }

  /** `Type.#new(...)` builds a STRUCT_INIT; anything else a MEMBER_ACCESSOR. */
  function AccessOf(parent: Instr, member: Instr): Instr
  {
    if parent.Typename? && member.PatternCall? then StructInit(parent.name, member.pattern, member.args, parent.pos)
    else MemberAccessor(parent, member, PosOf(parent))
  }

  /** The checks `mangle_accessors` makes on a `.` standing at index |done|; None when it stands
      between a valid parent and a valid member. */
  function AccessorError(done: seq<Instr>, rest: seq<Instr>): (r: Option<Error>)
    requires rest != []
    ensures r.None? <==> done != [] && |rest| > 1 && AccessorParent(done[|done| - 1]) && AccessorMember(rest[1])
  {
    if done == [] || |rest| == 1 then Some(HostError(UndeclaredOption))
    else if !AccessorParent(done[|done| - 1]) then
      Some(CompileError("Invalid term preceding a member accessor", PosOf(done[|done| - 1])))
    else if !AccessorMember(rest[1]) then Some(CompileError("Invalid term following a member accessor", PosOf(rest[1])))
    else None
  }

  /** `mangle_accessors`: after folding `a.b` the loop index moves on by one in the shortened list,
      so the entry after `b` is never examined. */
  function AccessorsFrom(done: seq<Instr>, rest: seq<Instr>): Result<seq<Instr>>
    decreases |rest|
  {
    if rest == [] then Ok(done)
    else if KindOf(rest[0]) != K.MemberAccessor then AccessorsFrom(done + [rest[0]], rest[1..])
    else match AccessorError(done, rest)
      case Some(e) => Err(e)
      case None =>
        var after := rest[2..];
        var skip := if after == [] then 0 else 1;
        AccessorsFrom(done[..|done| - 1] + [AccessOf(done[|done| - 1], rest[1])] + after[..skip], after[skip..])
  }

  function Accessors(xs: seq<Instr>): Result<seq<Instr>>
  {
    AccessorsFrom([], xs)
  }

  method MangleAccessors(xs: seq<Instr>) returns (r: Result<seq<Instr>>)
    ensures r == Accessors(xs)
  {
    var instrs := xs;
    var n: nat := 0;
    while n < |instrs|
      invariant n <= |instrs|
      invariant AccessorsFrom(instrs[..n], instrs[n..]) == Accessors(xs)
    {
      if KindOf(instrs[n]) == K.MemberAccessor {
        var e := AccessorError(instrs[..n], instrs[n..]);
        if e.Some? {
          return Err(e.value);
        }
        var x := AccessOf(instrs[n - 1], instrs[n + 1]);
        AccessorStep(instrs, n, x);
        instrs := Insert(instrs, x, n - 1, 3);
        n := if |instrs| < n + 1 then |instrs| else n + 1;
      } else {
        assert instrs[..n + 1] == instrs[..n] + [instrs[n]];
        assert instrs[n + 1..] == instrs[n..][1..];
        n := n + 1;
      }
    }
    assert instrs[..n] == instrs;
    return Ok(instrs);
  }

  lemma AccessorStep(instrs: seq<Instr>, n: nat, x: Instr)
    requires 1 <= n < |instrs| - 1
    ensures var after := instrs[n..][2..];
            var skip := if after == [] then 0 else 1;
            var next := Insert(instrs, x, n - 1, 3);
            var m := if |next| < n + 1 then |next| else n + 1;
            next[..m] == instrs[..n][..n - 1] + [x] + after[..skip] && next[m..] == after[skip..]
  {
  }

  /** `a.b.c` folds `a.b` and then skips the second `.`, which stays in the list as a bare term. */
  lemma ChainedAccessorSkipped(a: string, b: string, c: string, p: Pos)
    ensures var dot := Keyword(K.MemberAccessor, p);
            Accessors([Symbol(a, p), dot, Symbol(b, p), dot, Symbol(c, p)])
              == Ok([MemberAccessor(Symbol(a, p), Symbol(b, p), p), dot, Symbol(c, p)])
  {
    var dot := Keyword(K.MemberAccessor, p);
    var rest := [dot, Symbol(b, p), dot, Symbol(c, p)];
    var ma := MemberAccessor(Symbol(a, p), Symbol(b, p), p);
    assert ([Symbol(a, p)] + rest)[1..] == rest;
    assert AccessorsFrom([], [Symbol(a, p)] + rest) == AccessorsFrom([Symbol(a, p)], rest);
    assert AccessorError([Symbol(a, p)], rest).None?;
    var after := rest[2..];
    assert after == [dot, Symbol(c, p)];
    assert AccessOf(Symbol(a, p), Symbol(b, p)) == ma;
    assert [Symbol(a, p)][..0] + [ma] + after[..1] == [ma, dot];
    assert after[1..] == [Symbol(c, p)];
    assert AccessorsFrom([Symbol(a, p)], rest) == AccessorsFrom([ma, dot], [Symbol(c, p)]);
    assert [Symbol(c, p)][1..] == [] && [ma, dot] + [Symbol(c, p)] == [ma, dot, Symbol(c, p)];
    assert AccessorsFrom([ma, dot], [Symbol(c, p)]) == AccessorsFrom([ma, dot, Symbol(c, p)], []);
  }

  // ---------------------------------------------------------------- mangle_unary_expressions

  predicate IsUnaryOp(i: Instr) { i.Operator? && K.IsUnary(i.op) }

  /** How many unary operators `rest` starts with. */
  function UnaryRun(rest: seq<Instr>): (r: nat)
    ensures r <= |rest|
    ensures forall j :: 0 <= j < r ==> IsUnaryOp(rest[j])
    ensures r < |rest| ==> !IsUnaryOp(rest[r])
  {
    if rest == [] || !IsUnaryOp(rest[0]) then 0 else 1 + UnaryRun(rest[1..])
  }

  /** The operator steps of a run of unary operators, in source order. */
  function OpSteps(ops: seq<Instr>): (r: seq<Step>)
    requires forall j :: 0 <= j < |ops| ==> ops[j].Operator?
  {
    seq(|ops|, j requires 0 <= j < |ops| => Apply(ops[j].op))
  }

  /** `mangle_unary_expressions`: a run of unary operators and the operand after it become one
      EXPRESSION whose steps are the operand and then the operators. */
  function UnaryFrom(done: seq<Instr>, rest: seq<Instr>, ctx: Ctx): Result<seq<Instr>>
    decreases |rest|
  {
    if rest == [] then Ok(done)
    else if !IsUnaryOp(rest[0]) then UnaryFrom(done + [rest[0]], rest[1..], ctx)
    else if |rest| == 1 then Err(CompileError("Operator at end of " + CtxName(ctx), PosOf(rest[0])))
    else
      var k := UnaryRun(rest);
      if k == |rest| then Err(HostError(ReadPastEnd))
      else if !K.IsValidExpTerm(KindOf(rest[k])) then Err(CompileError("Invalid term following expression", PosOf(rest[k])))
      else UnaryFrom(done + [Expression([Operand(rest[k])] + OpSteps(rest[..k]), None, PosOf(rest[0]))], rest[k + 1..], ctx)
  }

  function Unary(xs: seq<Instr>, ctx: Ctx): Result<seq<Instr>>
  {
    UnaryFrom([], xs, ctx)
  }

  method MangleUnary(xs: seq<Instr>, ctx: Ctx) returns (r: Result<seq<Instr>>)
    ensures r == Unary(xs, ctx)
  {
    var instrs := xs;
    var n := 0;
    while n < |instrs|
      invariant n <= |instrs|
      invariant UnaryFrom(instrs[..n], instrs[n..], ctx) == Unary(xs, ctx)
    {
      if IsUnaryOp(instrs[n]) {
        UnaryFoldStep(instrs, n, ctx);
        if n == |instrs| - 1 {
          return Err(CompileError("Operator at end of " + CtxName(ctx), PosOf(instrs[n])));
        }
        var o, unaries := ScanUnaries(instrs, n);
        if o == |instrs| {
          return Err(HostError(ReadPastEnd));
        }
        if !K.IsValidExpTerm(KindOf(instrs[o])) {
          return Err(CompileError("Invalid term following expression", PosOf(instrs[o])));
        }
        var e := Expression([Operand(instrs[o])] + unaries, None, PosOf(instrs[n]));
        instrs := Insert(instrs, e, n, o - n + 1);
      } else {
        UnarySkipStep(instrs, n, ctx);
      }
      n := n + 1;
    }
    assert instrs[..n] == instrs;
    return Ok(instrs);
  }

  /** The inner loop of `mangle_unary_expressions`: the run of unary operators from index `n`. */
  method ScanUnaries(instrs: seq<Instr>, n: nat) returns (o: nat, unaries: seq<Step>)
    requires n < |instrs| && IsUnaryOp(instrs[n])
    ensures n < o <= |instrs| && o - n == UnaryRun(instrs[n..])
    ensures unaries == OpSteps(instrs[n..][..o - n])
  {
    unaries := [Apply(instrs[n].op)];
    o := n + 1;
    while o < |instrs| && IsUnaryOp(instrs[o])
      invariant n < o <= |instrs|
      invariant forall j :: n <= j < o ==> IsUnaryOp(instrs[j])
      invariant unaries == OpSteps(instrs[n..o])
    {
      OpStepsAppend(instrs[n..o], instrs[o]);
      assert instrs[n..o + 1] == instrs[n..o] + [instrs[o]];
      unaries := unaries + [Apply(instrs[o].op)];
      o := o + 1;
    }
    UnaryRunIs(instrs[n..], o - n);
    assert instrs[n..][..o - n] == instrs[n..o];
  }

  /** One step of the unary pass at a unary operator: its errors, or the fold of the run and its operand. */
  lemma UnaryFoldStep(instrs: seq<Instr>, n: nat, ctx: Ctx)
    requires n < |instrs| && IsUnaryOp(instrs[n])
    ensures var r := UnaryFrom(instrs[..n], instrs[n..], ctx);
      var k := UnaryRun(instrs[n..]);
      (n == |instrs| - 1 ==> r == Err(CompileError("Operator at end of " + CtxName(ctx), PosOf(instrs[n]))))
      && (n < |instrs| - 1 && n + k == |instrs| ==> r == Err(HostError(ReadPastEnd)))
      && (n < |instrs| - 1 && n + k < |instrs| && !K.IsValidExpTerm(KindOf(instrs[n + k])) ==>
            r == Err(CompileError("Invalid term following expression", PosOf(instrs[n + k]))))
      && (n < |instrs| - 1 && n + k < |instrs| && K.IsValidExpTerm(KindOf(instrs[n + k])) ==>
            var e := Expression([Operand(instrs[n + k])] + OpSteps(instrs[n..][..k]), None, PosOf(instrs[n]));
            var next := Insert(instrs, e, n, k + 1);
            r == UnaryFrom(next[..n + 1], next[n + 1..], ctx))
  {
    var rest := instrs[n..];
    assert rest[0] == instrs[n];
    var k := UnaryRun(rest);
    if n < |instrs| - 1 && n + k < |instrs| {
      assert rest[k] == instrs[n + k];
      var e := Expression([Operand(instrs[n + k])] + OpSteps(rest[..k]), None, PosOf(instrs[n]));
      UnaryStep(instrs, n, n + k, e);
    }
  }

  /** One step of the unary pass over an entry that is not a unary operator. */
  lemma UnarySkipStep(instrs: seq<Instr>, n: nat, ctx: Ctx)
    requires n < |instrs| && !IsUnaryOp(instrs[n])
    ensures UnaryFrom(instrs[..n], instrs[n..], ctx) == UnaryFrom(instrs[..n + 1], instrs[n + 1..], ctx)
  {
    assert instrs[n..][0] == instrs[n];
    assert instrs[..n + 1] == instrs[..n] + [instrs[n]];
    assert instrs[n + 1..] == instrs[n..][1..];
  }

  lemma UnaryStep(instrs: seq<Instr>, n: nat, o: nat, e: Instr)
    requires n < o < |instrs|
    ensures Insert(instrs, e, n, o - n + 1)[..n + 1] == instrs[..n] + [e]
    ensures Insert(instrs, e, n, o - n + 1)[n + 1..] == instrs[n..][o - n + 1..]
  {
  }

  lemma OpStepsAppend(ops: seq<Instr>, x: Instr)
    requires forall j :: 0 <= j < |ops| ==> ops[j].Operator?
    requires x.Operator?
    ensures OpSteps(ops + [x]) == OpSteps(ops) + [Apply(x.op)]
  {
    assert forall j :: 0 <= j < |ops| ==> (ops + [x])[j] == ops[j];
  }

  lemma {:induction false} UnaryRunIs(rest: seq<Instr>, k: nat)
    requires k <= |rest|
    requires forall j :: 0 <= j < k ==> IsUnaryOp(rest[j])
    requires k < |rest| ==> !IsUnaryOp(rest[k])
    ensures UnaryRun(rest) == k
  {
    if k > 0 {
      assert IsUnaryOp(rest[0]);
      UnaryRunIs(rest[1..], k - 1);
    }
  }

  /** After the pass no unary operator is left: each run was folded with its operand. */
  lemma {:induction false} UnaryFolded(done: seq<Instr>, rest: seq<Instr>, ctx: Ctx)
    requires forall j :: 0 <= j < |done| ==> !IsUnaryOp(done[j])
    ensures UnaryFrom(done, rest, ctx).Ok? ==>
      forall j :: 0 <= j < |UnaryFrom(done, rest, ctx).value| ==> !IsUnaryOp(UnaryFrom(done, rest, ctx).value[j])
    decreases |rest|
  {
    if rest != [] {
      if !IsUnaryOp(rest[0]) {
        assert UnaryFrom(done, rest, ctx) == UnaryFrom(done + [rest[0]], rest[1..], ctx);
        NoUnaryAppend(done, rest[0]);
        UnaryFolded(done + [rest[0]], rest[1..], ctx);
      } else if |rest| > 1 {
        var k := UnaryRun(rest);
        if k < |rest| && K.IsValidExpTerm(KindOf(rest[k])) {
          var e := Expression([Operand(rest[k])] + OpSteps(rest[..k]), None, PosOf(rest[0]));
          assert UnaryFrom(done, rest, ctx) == UnaryFrom(done + [e], rest[k + 1..], ctx);
          NoUnaryAppend(done, e);
          UnaryFolded(done + [e], rest[k + 1..], ctx);
        }
      }
    }
  }

  lemma NoUnaryAppend(xs: seq<Instr>, x: Instr)
    requires forall j :: 0 <= j < |xs| ==> !IsUnaryOp(xs[j])
    requires !IsUnaryOp(x)
    ensures forall j :: 0 <= j < |xs + [x]| ==> !IsUnaryOp((xs + [x])[j])
  {
    forall j | 0 <= j < |xs + [x]|
      ensures !IsUnaryOp((xs + [x])[j])
    {
      if j < |xs| {
        assert (xs + [x])[j] == xs[j];
      }
    }
  }

  // ---------------------------------------------------------------- mangle_expressions

  /** The checks `mangle_expressions` makes on an operator at index |done|; None when it stands
      between two operands. */
  function OperatorError(done: seq<Instr>, rest: seq<Instr>, ctx: Ctx): (r: Option<Error>)
    requires rest != []
    ensures r.None? <==> done != [] && |rest| > 1 && K.IsValidExpTerm(KindOf(done[|done| - 1]))
                         && K.IsValidExpTerm(KindOf(rest[1]))
  {
    if done == [] then Some(CompileError("Operator at start of " + CtxName(ctx), PosOf(rest[0])))
    else if |rest| == 1 then Some(CompileError("Operator at end of " + CtxName(ctx), PosOf(rest[0])))
    else if !K.IsValidExpTerm(KindOf(done[|done| - 1])) then
      Some(CompileError("Invalid term preceding operator", PosOf(done[|done| - 1])))
    else if !K.IsValidExpTerm(KindOf(rest[1])) then Some(CompileError("Invalid term following operator", PosOf(rest[1])))
    else None
  }

  /** The chain `e0 op e1 op e2 ...` read from offset `o` of `rest` (`rest[0]` is the first `op`):
      the operands collected and the offset of the first entry after the chain. Another operator
      in the chain is an error: there is no precedence. */
  function ChainFrom(rest: seq<Instr>, ctx: Ctx, op: K.Op, o: nat, elements: seq<Instr>): (r: Result<(seq<Instr>, nat)>)
    requires o <= |rest|
    ensures r.Ok? ==> o <= r.value.1 <= |rest|
    decreases |rest| - o
  {
    if o == |rest| || !rest[o].Operator? then Ok((elements, o))
    else if o == |rest| - 1 then Err(CompileError("Operator at end of " + CtxName(ctx), PosOf(rest[o])))
    else if rest[o].op != op then Err(CompileError("Operator precedence is not supported", PosOf(rest[o])))
    else if !K.IsValidExpTerm(KindOf(rest[o + 1])) then Err(CompileError("Invalid term following operator", PosOf(rest[o + 1])))
    else ChainFrom(rest, ctx, op, o + 2, elements + [rest[o + 1]])
  }

  /** The steps one operand contributes: a parenthesised expression `(a + b)` gives its steps;
      another expression gives its steps followed by itself; anything else gives itself. */
  function ElementSteps(e: Instr): seq<Step>
  {
    if e.Tuple? && e.length == 1 then
      (if |e.body| == 1 && e.body[0].Expression? then e.body[0].steps else [Operand(e)])
    else if e.Expression? then e.steps + [Operand(e)]
    else [Operand(e)]
  }

  function ElementsSteps(elements: seq<Instr>): seq<Step>
  {
    if elements == [] then [] else ElementsSteps(elements[..|elements| - 1]) + ElementSteps(elements[|elements| - 1])
  }

  function Repeat(s: Step, k: nat): (r: seq<Step>)
    ensures |r| == k && forall j :: 0 <= j < k ==> r[j] == s
  {
    if k == 0 then [] else Repeat(s, k - 1) + [s]
  }

  /** The postfix steps of an operator chain: every operand's steps, then the operator once per gap. */
  function ChainSteps(elements: seq<Instr>, op: K.Op): seq<Step>
  {
    ElementsSteps(elements) + Repeat(Apply(op), if elements == [] then 0 else |elements| - 1)
  }

  /** The two loops of `mangle_expressions` that build an expression's steps. */
  method BuildSteps(elements: seq<Instr>, op: K.Op) returns (steps: seq<Step>)
    ensures steps == ChainSteps(elements, op)
  {
    steps := [];
    var i := 0;
    while i < |elements|
      invariant i <= |elements|
      invariant steps == ElementsSteps(elements[..i])
    {
      var e := elements[i];
      assert elements[..i + 1][..i] == elements[..i];
      if e.Tuple? && e.length == 1 {
        if |e.body| == 1 && e.body[0].Expression? {
          steps := steps + e.body[0].steps;
          i := i + 1;
          continue;
        }
      } else if e.Expression? {
        steps := steps + e.steps;
      }
      steps := steps + [Operand(e)];
      i := i + 1;
    }
    assert elements[..i] == elements;
    var j := 0;
    var gaps := if elements == [] then 0 else |elements| - 1;
    while j < gaps
      invariant j <= gaps
      invariant steps == ElementsSteps(elements) + Repeat(Apply(op), j)
    {
      steps := steps + [Apply(op)];
      j := j + 1;
    }
  }

  /** `mangle_expressions`: an operator chain and its operands become one EXPRESSION, which is
      examined again as the left operand of what follows. */
  function ExpressionsFrom(done: seq<Instr>, rest: seq<Instr>, ctx: Ctx): Result<seq<Instr>>
    decreases |rest|
  {
    if rest == [] then Ok(done)
    else if !rest[0].Operator? then ExpressionsFrom(done + [rest[0]], rest[1..], ctx)
    else match OperatorError(done, rest, ctx)
      case Some(e) => Err(e)
      case None =>
        var op := rest[0].op;
        match ChainFrom(rest, ctx, op, 2, [done[|done| - 1], rest[1]])
        case Err(e) => Err(e)
        case Ok((elements, o)) =>
          var x := Expression(ChainSteps(elements, op), Some(op), PosOf(rest[0]));
          ExpressionsFrom(done[..|done| - 1] + [x], rest[o..], ctx)
  }

  function Expressions(xs: seq<Instr>, ctx: Ctx): Result<seq<Instr>>
  {
    ExpressionsFrom([], xs, ctx)
  }

  method MangleExpressions(xs: seq<Instr>, ctx: Ctx) returns (r: Result<seq<Instr>>)
    ensures r == Expressions(xs, ctx)
  {
    var instrs := xs;
    var n := 0;
    while n < |instrs|
      invariant n <= |instrs|
      invariant ExpressionsFrom(instrs[..n], instrs[n..], ctx) == Expressions(xs, ctx)
    {
      if instrs[n].Operator? {
        ExpressionFoldStep(instrs, n, ctx);
        var e := OperatorError(instrs[..n], instrs[n..], ctx);
        if e.Some? {
          return Err(e.value);
        }
        var op := instrs[n].op;
        var chain := ScanChain(instrs, n, ctx, op);
        if chain.Err? {
          return Err(chain.error);
        }
        var (elements, o) := chain.value;
        var steps := BuildSteps(elements, op);
        var x := Expression(steps, Some(op), PosOf(instrs[n]));
        instrs := Insert(instrs, x, n - 1, o + 1);
      } else {
        ExpressionSkipStep(instrs, n, ctx);
        n := n + 1;
      }
    }
    assert instrs[..n] == instrs;
    return Ok(instrs);
  }

  /** The inner loop of `mangle_expressions`: the operator chain from the operator at index `n`,
      as an offset from `n`. */
  method ScanChain(instrs: seq<Instr>, n: nat, ctx: Ctx, op: K.Op) returns (r: Result<(seq<Instr>, nat)>)
    requires 0 < n < |instrs| - 1
    ensures r == ChainFrom(instrs[n..], ctx, op, 2, [instrs[n - 1], instrs[n + 1]])
  {
    var rest := instrs[n..];
    var elements := [instrs[n - 1], rest[1]];
    var o := 2;
    while o < |rest|
      invariant 2 <= o <= |rest|
      invariant ChainFrom(rest, ctx, op, o, elements) == ChainFrom(rest, ctx, op, 2, [instrs[n - 1], rest[1]])
    {
      if rest[o].Operator? {
        if o == |rest| - 1 {
          return Err(CompileError("Operator at end of " + CtxName(ctx), PosOf(rest[o])));
        }
        if rest[o].op != op {
          return Err(CompileError("Operator precedence is not supported", PosOf(rest[o])));
        }
        if !K.IsValidExpTerm(KindOf(rest[o + 1])) {
          return Err(CompileError("Invalid term following operator", PosOf(rest[o + 1])));
        }
        elements := elements + [rest[o + 1]];
        o := o + 2;
      } else {
        break;
      }
    }
    return Ok((elements, o));
  }

  /** One step of the operator pass at an operator: its error, the chain's error, or the fold of the
      chain into one expression that is examined next. */
  lemma ExpressionFoldStep(instrs: seq<Instr>, n: nat, ctx: Ctx)
    requires n < |instrs| && instrs[n].Operator?
    ensures var r := ExpressionsFrom(instrs[..n], instrs[n..], ctx);
      var e := OperatorError(instrs[..n], instrs[n..], ctx);
      (e.Some? ==> r == Err(e.value))
      && (e.None? ==>
            var op := instrs[n].op;
            var c := ChainFrom(instrs[n..], ctx, op, 2, [instrs[n - 1], instrs[n + 1]]);
            (c.Err? ==> r == Err(c.error))
            && (c.Ok? ==>
                  var next := Insert(instrs, Expression(ChainSteps(c.value.0, op), Some(op), PosOf(instrs[n])), n - 1, c.value.1 + 1);
                  r == ExpressionsFrom(next[..n], next[n..], ctx)))
  {
    var e := OperatorError(instrs[..n], instrs[n..], ctx);
    if e.Some? {
      OperatorErrorStep(instrs, n, ctx);
    } else {
      var c := ChainFrom(instrs[n..], ctx, instrs[n].op, 2, [instrs[n - 1], instrs[n + 1]]);
      if c.Err? {
        ChainErrorStep(instrs, n, ctx);
      } else {
        ChainFoldStep(instrs, n, ctx);
      }
    }
  }

  lemma OperatorErrorStep(instrs: seq<Instr>, n: nat, ctx: Ctx)
    requires n < |instrs| && instrs[n].Operator?
    requires OperatorError(instrs[..n], instrs[n..], ctx).Some?
    ensures ExpressionsFrom(instrs[..n], instrs[n..], ctx) == Err(OperatorError(instrs[..n], instrs[n..], ctx).value)
  {
    assert instrs[n..][0] == instrs[n];
  }

  lemma ChainErrorStep(instrs: seq<Instr>, n: nat, ctx: Ctx)
    requires n < |instrs| && instrs[n].Operator?
    requires OperatorError(instrs[..n], instrs[n..], ctx).None?
    requires ChainFrom(instrs[n..], ctx, instrs[n].op, 2, [instrs[n - 1], instrs[n + 1]]).Err?
    ensures ExpressionsFrom(instrs[..n], instrs[n..], ctx)
      == Err(ChainFrom(instrs[n..], ctx, instrs[n].op, 2, [instrs[n - 1], instrs[n + 1]]).error)
  {
    var done, rest := instrs[..n], instrs[n..];
    assert rest[0] == instrs[n];
    assert done[|done| - 1] == instrs[n - 1] && rest[1] == instrs[n + 1];
  }

  lemma ChainFoldStep(instrs: seq<Instr>, n: nat, ctx: Ctx)
    requires n < |instrs| && instrs[n].Operator?
    requires OperatorError(instrs[..n], instrs[n..], ctx).None?
    requires ChainFrom(instrs[n..], ctx, instrs[n].op, 2, [instrs[n - 1], instrs[n + 1]]).Ok?
    ensures var op := instrs[n].op;
      var c := ChainFrom(instrs[n..], ctx, op, 2, [instrs[n - 1], instrs[n + 1]]);
      var next := Insert(instrs, Expression(ChainSteps(c.value.0, op), Some(op), PosOf(instrs[n])), n - 1, c.value.1 + 1);
      ExpressionsFrom(instrs[..n], instrs[n..], ctx) == ExpressionsFrom(next[..n], next[n..], ctx)
  {
    var done, rest := instrs[..n], instrs[n..];
    assert rest[0] == instrs[n];
    assert done[|done| - 1] == instrs[n - 1] && rest[1] == instrs[n + 1];
    var op := instrs[n].op;
    var c := ChainFrom(rest, ctx, op, 2, [instrs[n - 1], instrs[n + 1]]);
    var x := Expression(ChainSteps(c.value.0, op), Some(op), PosOf(instrs[n]));
    ExpressionsFold(done, rest, ctx, c.value.0, c.value.1);
    ExpressionStep(instrs, n, c.value.1, x);
  }

  /** One step of the operator pass over an entry that is not an operator. */
  lemma ExpressionSkipStep(instrs: seq<Instr>, n: nat, ctx: Ctx)
    requires n < |instrs| && !instrs[n].Operator?
    ensures ExpressionsFrom(instrs[..n], instrs[n..], ctx) == ExpressionsFrom(instrs[..n + 1], instrs[n + 1..], ctx)
  {
    assert instrs[n..][0] == instrs[n];
    assert instrs[..n + 1] == instrs[..n] + [instrs[n]];
    assert instrs[n + 1..] == instrs[n..][1..];
  }

  lemma ExpressionStep(instrs: seq<Instr>, n: nat, o: nat, x: Instr)
    requires 0 < n && n + o <= |instrs|
    ensures Insert(instrs, x, n - 1, o + 1)[..n] == instrs[..n][..n - 1] + [x]
    ensures Insert(instrs, x, n - 1, o + 1)[n..] == instrs[n..][o..]
  {
  }

  /** After the pass no operator term is left. */
  lemma {:induction false} ExpressionsFolded(done: seq<Instr>, rest: seq<Instr>, ctx: Ctx)
    requires NoKind(done, K.Operator)
    ensures ExpressionsFrom(done, rest, ctx).Ok? ==> NoKind(ExpressionsFrom(done, rest, ctx).value, K.Operator)
    decreases |rest|
  {
    if rest != [] {
      if !rest[0].Operator? {
        assert ExpressionsFrom(done, rest, ctx) == ExpressionsFrom(done + [rest[0]], rest[1..], ctx);
        NoKindReplaceLast(done, 0, rest[0], K.Operator);
        assert done[..|done| - 0] == done;
        ExpressionsFolded(done + [rest[0]], rest[1..], ctx);
      } else if OperatorError(done, rest, ctx).None? {
        var op := rest[0].op;
        var c := ChainFrom(rest, ctx, op, 2, [done[|done| - 1], rest[1]]);
        if c.Ok? {
          var x := Expression(ChainSteps(c.value.0, op), Some(op), PosOf(rest[0]));
          ExpressionsFold(done, rest, ctx, c.value.0, c.value.1);
          ExpressionKind(ChainSteps(c.value.0, op), Some(op), PosOf(rest[0]));
          NoKindReplaceLast(done, 1, x, K.Operator);
          ExpressionsFolded(done[..|done| - 1] + [x], rest[c.value.1..], ctx);
        }
      }
    }
  }

  lemma ExpressionKind(steps: seq<Step>, op: Option<K.Op>, p: Pos)
    ensures KindOf(Expression(steps, op, p)) == K.Expression
  {
  }

  /** One more `op e` continues the chain. */
  lemma ChainStep(rest: seq<Instr>, ctx: Ctx, op: K.Op, o: nat, elements: seq<Instr>)
    requires o + 1 < |rest| && rest[o].Operator? && rest[o].op == op && K.IsValidExpTerm(KindOf(rest[o + 1]))
    ensures ChainFrom(rest, ctx, op, o, elements) == ChainFrom(rest, ctx, op, o + 2, elements + [rest[o + 1]])
  {
  }

  /** An operator chain after `done` folds into one expression replacing its left operand. */
  lemma ExpressionsFold(done: seq<Instr>, rest: seq<Instr>, ctx: Ctx, elements: seq<Instr>, o: nat)
    requires rest != [] && rest[0].Operator? && OperatorError(done, rest, ctx).None?
    requires ChainFrom(rest, ctx, rest[0].op, 2, [done[|done| - 1], rest[1]]) == Ok((elements, o))
    ensures ExpressionsFrom(done, rest, ctx) ==
      ExpressionsFrom(done[..|done| - 1] + [Expression(ChainSteps(elements, rest[0].op), Some(rest[0].op), PosOf(rest[0]))], rest[o..], ctx)
  {
  }

  /** `a - b - c` with plain operands is the one expression `a b c - -`. */
  lemma ChainOfThree(a: Instr, b: Instr, c: Instr, op: K.Op, p: Pos, ctx: Ctx)
    requires a.Symbol? && b.Symbol? && c.Symbol?
    ensures Expressions([a, Operator(op, p), b, Operator(op, p), c], ctx)
      == Ok([Expression([Operand(a), Operand(b), Operand(c), Apply(op), Apply(op)], Some(op), p)])
  {
    var rest := [Operator(op, p), b, Operator(op, p), c];
    assert ([a] + rest)[1..] == rest;
    assert [a] + rest == [a, Operator(op, p), b, Operator(op, p), c];
    assert ExpressionsFrom([], [a] + rest, ctx) == ExpressionsFrom([a], rest, ctx);
    assert K.IsValidExpTerm(K.Symbol);
    assert OperatorError([a], rest, ctx).None?;
    ChainStep(rest, ctx, op, 2, [a, b]);
    assert [a, b] + [c] == [a, b, c];
    assert ChainFrom(rest, ctx, op, 2, [a, b]) == Ok(([a, b, c], 4));
    ThreeSteps(a, b, c, op);
    ExpressionsFold([a], rest, ctx, [a, b, c], 4);
    var x := Expression(ChainSteps([a, b, c], op), Some(op), PosOf(rest[0]));
    assert [a][..0] + [x] == [x] && rest[4..] == [];
    assert ExpressionsFrom([x], [], ctx) == Ok([x]);
  }

  lemma ThreeSteps(a: Instr, b: Instr, c: Instr, op: K.Op)
    requires a.Symbol? && b.Symbol? && c.Symbol?
    ensures ChainSteps([a, b, c], op) == [Operand(a), Operand(b), Operand(c), Apply(op), Apply(op)]
  {
    assert [a, b][..1] == [a] && [a, b, c][..2] == [a, b] && [a][..0] == [];
    assert ElementsSteps([a]) == [Operand(a)];
    assert ElementsSteps([a, b]) == [Operand(a), Operand(b)];
    assert ElementsSteps([a, b, c]) == [Operand(a), Operand(b), Operand(c)];
    assert Repeat(Apply(op), 2) == [Apply(op), Apply(op)];
  }

  // ---------------------------------------------------------------- mangle_define

  /** The instruction a `:` builds from the entries on its two sides. */
  function DefinitionOf(left: Instr, right: Instr): Result<Instr>
  {
    if left.Symbol? then Ok(DefineSymbol(left.name, right, left.pos))
    else if left.Expression? || left.Tuple? || left.FunctionCall? then Ok(DefineComplex(left, right, left.pos))
    else if left.Pattern? then
      (if !right.Function? then Err(CompileError("Pattern definitions must be followed by a function", PosOf(right)))
       else Ok(DefinePattern(left.name, right.params, right.code, right.isMethod, left.pos)))
    else if KindOf(left) == K.MemberAccessor then
      (if left.MemberAccessor? then Ok(DefineMember(Some(left.parent), Some(left.member), right, left.pos))
       else Ok(DefineMember(None, None, right, PosOf(left))))
    else Err(CompileError("Unexpected term preceding assignement", PosOf(left)))
  }

  /** `mangle_define`, which sweeps from right to left so that `a: b: c` assigns `b: c` first:
      `left` is still to be examined (its last entry next) and `done` has been. */
  function DefineFrom(left: seq<Instr>, done: seq<Instr>): Result<seq<Instr>>
    decreases |left|
  {
    if left == [] then Ok(done)
    else
      var n := |left| - 1;
      var x := left[n];
      if KindOf(x) != K.Define then DefineFrom(left[..n], [x] + done)
      else if n == 0 then Err(CompileError("Define at start of file", PosOf(x)))
      else if done == [] then Err(CompileError("Define at end of file", PosOf(x)))
      else match DefinitionOf(left[n - 1], done[0])
        case Err(e) => Err(e)
        case Ok(d) => DefineFrom(left[..n - 1], [d] + done[1..])
  }

  function Defines(xs: seq<Instr>): Result<seq<Instr>>
  {
    DefineFrom(xs, [])
  }

  /** One fold of the sweep: `left : right` becomes the definition, the sweep going on to its left. */
  lemma DefineFoldStep(instrs: seq<Instr>, n: nat, d: Instr)
    requires 1 <= n < |instrs| - 1 && KindOf(instrs[n]) == K.Define
    requires DefinitionOf(instrs[n - 1], instrs[n + 1]) == Ok(d)
    ensures var j := Insert(instrs, d, n - 1, 3);
      DefineFrom(j[..n - 1], j[n - 1..]) == DefineFrom(instrs[..n + 1], instrs[n + 1..])
  {
    var j := Insert(instrs, d, n - 1, 3);
    var left := instrs[..n + 1];
    var done := instrs[n + 1..];
    assert left[n] == instrs[n] && left[n - 1] == instrs[n - 1] && done[0] == instrs[n + 1];
    assert left[..n - 1] == instrs[..n - 1] == j[..n - 1];
    assert j[n - 1..] == [d] + done[1..];
    assert DefineFrom(left, done) == DefineFrom(left[..n - 1], [d] + done[1..]);
  }

  /** Where the sweep meets a `:` it cannot fold, it fails. */
  lemma DefineErrorStep(instrs: seq<Instr>, n: nat)
    requires n < |instrs| && KindOf(instrs[n]) == K.Define
    ensures var r := DefineFrom(instrs[..n + 1], instrs[n + 1..]);
      (n == 0 ==> r == Err(CompileError("Define at start of file", PosOf(instrs[n]))))
      && (0 < n == |instrs| - 1 ==> r == Err(CompileError("Define at end of file", PosOf(instrs[n]))))
      && (0 < n < |instrs| - 1 && DefinitionOf(instrs[n - 1], instrs[n + 1]).Err? ==>
            r == Err(DefinitionOf(instrs[n - 1], instrs[n + 1]).error))
  {
    var left := instrs[..n + 1];
    assert left[n] == instrs[n];
    if n > 0 {
      assert left[n - 1] == instrs[n - 1];
    }
    if n < |instrs| - 1 {
      assert instrs[n + 1..][0] == instrs[n + 1];
    }
  }

  /** One step of the sweep over an entry that is not `:`. */
  lemma DefineSkipStep(instrs: seq<Instr>, n: nat)
    requires n < |instrs| && KindOf(instrs[n]) != K.Define
    ensures DefineFrom(instrs[..n], instrs[n..]) == DefineFrom(instrs[..n + 1], instrs[n + 1..])
  {
    assert instrs[..n + 1][..n] == instrs[..n];
    assert instrs[..n + 1][n] == instrs[n];
    assert instrs[n..] == [instrs[n]] + instrs[n + 1..];
  }

  method MangleDefine(xs: seq<Instr>) returns (r: Result<seq<Instr>>)
    ensures r == Defines(xs)
  {
    var instrs := xs;
    var n := |instrs| - 1;
    assert instrs[..n + 1] == instrs && instrs[n + 1..] == [];
    while n >= 0
      invariant -1 <= n < |instrs|
      invariant DefineFrom(instrs[..n + 1], instrs[n + 1..]) == Defines(xs)
    {
      if KindOf(instrs[n]) == K.Define {
        DefineErrorStep(instrs, n);
        if n == 0 {
          return Err(CompileError("Define at start of file", PosOf(instrs[n])));
        } else if n == |instrs| - 1 {
          return Err(CompileError("Define at end of file", PosOf(instrs[n])));
        }
        var d := DefinitionOf(instrs[n - 1], instrs[n + 1]);
        if d.Err? {
          return Err(d.error);
        }
        DefineFoldStep(instrs, n, d.value);
        instrs := Insert(instrs, d.value, n - 1, 3);
        n := n - 1;
      } else {
        DefineSkipStep(instrs, n);
      }
      n := n - 1;
    }
    assert instrs[..n + 1] == [] && instrs[n + 1..] == instrs;
    return Ok(instrs);
  }

  /** After the pass no `:` is left. */
  lemma {:induction false} DefinesFolded(left: seq<Instr>, done: seq<Instr>)
    requires NoKind(done, K.Define)
    ensures DefineFrom(left, done).Ok? ==> NoKind(DefineFrom(left, done).value, K.Define)
    decreases |left|
  {
    if left != [] {
      var n := |left| - 1;
      if KindOf(left[n]) != K.Define {
        DefinesFolded(left[..n], [left[n]] + done);
      } else if n > 0 && done != [] && DefinitionOf(left[n - 1], done[0]).Ok? {
        DefinesFolded(left[..n - 1], [DefinitionOf(left[n - 1], done[0]).value] + done[1..]);
      }
    }
  }

  /** Entries other than `:` are passed over. */
  lemma DefinePass(left: seq<Instr>, x: Instr, done: seq<Instr>)
    requires KindOf(x) != K.Define
    ensures DefineFrom(left + [x], done) == DefineFrom(left, [x] + done)
  {
    assert (left + [x])[..|left|] == left;
  }

  /** A `:` between two entries folds them. */
  lemma DefineFold(left: seq<Instr>, l: Instr, colon: Instr, r: Instr, done: seq<Instr>)
    requires KindOf(colon) == K.Define && DefinitionOf(l, r).Ok?
    ensures DefineFrom(left + [l, colon], [r] + done) == DefineFrom(left, [DefinitionOf(l, r).value] + done)
  {
    var xs := left + [l, colon];
    assert xs[..|xs| - 1][..|xs| - 2] == left && xs[|xs| - 2] == l;
    assert ([r] + done)[1..] == done;
  }

  /** `a: b: v` assigns to `b` first and `a` receives that assignment. */
  lemma DefineRightToLeft(a: string, b: string, v: Instr, p: Pos)
    requires KindOf(v) != K.Define
    ensures var colon := Keyword(K.Define, p);
            Defines([Symbol(a, p), colon, Symbol(b, p), colon, v])
              == Ok([DefineSymbol(a, DefineSymbol(b, v, p), p)])
  {
    var colon := Keyword(K.Define, p);
    var inner := DefineSymbol(b, v, p);
    DefineInner(a, b, v, p);
    DefineOuter(a, inner, p);
  }

  /** The sweep passes `v` and folds `b: v` first. */
  lemma DefineInner(a: string, b: string, v: Instr, p: Pos)
    requires KindOf(v) != K.Define
    ensures var colon := Keyword(K.Define, p);
            DefineFrom([Symbol(a, p), colon, Symbol(b, p), colon, v], [])
              == DefineFrom([Symbol(a, p), colon], [DefineSymbol(b, v, p)])
  {
    var colon := Keyword(K.Define, p);
    var l2 := [Symbol(a, p), colon];
    var l4 := l2 + [Symbol(b, p), colon];
    assert l4 + [v] == [Symbol(a, p), colon, Symbol(b, p), colon, v];
    DefinePass(l4, v, []);
    assert [v] + [] == [v];
    assert DefinitionOf(Symbol(b, p), v) == Ok(DefineSymbol(b, v, p));
    DefineFold(l2, Symbol(b, p), colon, v, []);
    assert [DefineSymbol(b, v, p)] + [] == [DefineSymbol(b, v, p)];
  }

  /** Then `a: (b: v)` folds into the one definition of `a`. */
  lemma DefineOuter(a: string, inner: Instr, p: Pos)
    ensures DefineFrom([Symbol(a, p), Keyword(K.Define, p)], [inner]) == Ok([DefineSymbol(a, inner, p)])
  {
    var left := [Symbol(a, p), Keyword(K.Define, p)];
    var d := DefineSymbol(a, inner, p);
    assert KindOf(left[1]) == K.Define && left[..0] == [] && [inner][1..] == [];
    assert DefinitionOf(left[0], [inner][0]) == Ok(d);
    assert DefineFrom(left, [inner]) == DefineFrom([], [d] + []);
    assert [d] + [] == [d];
  }

  // ---------------------------------------------------------------- mangle_declaration

  /** `mangle_declaration`: `let x` and `let x: v` become a DECLARE_SYMBOL. */
  function DeclarationsFrom(done: seq<Instr>, rest: seq<Instr>, ctx: Ctx): Result<seq<Instr>>
    decreases |rest|
  {
    if rest == [] then Ok(done)
    else if KindOf(rest[0]) != K.Let then DeclarationsFrom(done + [rest[0]], rest[1..], ctx)
    else if |rest| == 1 then Err(CompileError("LET at end of " + CtxName(ctx), PosOf(rest[0])))
    else if IsTupleCtx(ctx) then Err(CompileError("Cannot have LET instructions in " + CtxName(ctx), PosOf(rest[0])))
    else
      var next := rest[1];
      if next.Symbol? then DeclarationsFrom(done + [DeclareSymbol(next.name, None, PosOf(rest[0]))], rest[2..], ctx)
      else if next.DefineSymbol? then
        DeclarationsFrom(done + [DeclareSymbol(next.name, Some(next.right), PosOf(rest[0]))], rest[2..], ctx)
      else if next.Tuple? then Err(HostError("Unimplemented"))
      else Err(CompileError("Invalid term following a LET instruction", PosOf(next)))
  }

  function Declarations(xs: seq<Instr>, ctx: Ctx): Result<seq<Instr>>
  {
    DeclarationsFrom([], xs, ctx)
  }

  method MangleDeclaration(xs: seq<Instr>, ctx: Ctx) returns (r: Result<seq<Instr>>)
    ensures r == Declarations(xs, ctx)
  {
    var instrs := xs;
    var n := 0;
    while n < |instrs|
      invariant n <= |instrs|
      invariant DeclarationsFrom(instrs[..n], instrs[n..], ctx) == Declarations(xs, ctx)
    {
      if KindOf(instrs[n]) == K.Let {
        if n == |instrs| - 1 {
          return Err(CompileError("LET at end of " + CtxName(ctx), PosOf(instrs[n])));
        } else if IsTupleCtx(ctx) {
          return Err(CompileError("Cannot have LET instructions in " + CtxName(ctx), PosOf(instrs[n])));
        }
        var next := instrs[n + 1];
        var d;
        if next.Symbol? {
          d := DeclareSymbol(next.name, None, PosOf(instrs[n]));
        } else if next.DefineSymbol? {
          d := DeclareSymbol(next.name, Some(next.right), PosOf(instrs[n]));
        } else if next.Tuple? {
          return Err(HostError("Unimplemented"));
        } else {
          return Err(CompileError("Invalid term following a LET instruction", PosOf(next)));
        }
        assert Insert(instrs, d, n, 2)[..n + 1] == instrs[..n] + [d];
        assert Insert(instrs, d, n, 2)[n + 1..] == instrs[n..][2..];
        instrs := Insert(instrs, d, n, 2);
      } else {
        assert instrs[..n + 1] == instrs[..n] + [instrs[n]];
        assert instrs[n + 1..] == instrs[n..][1..];
      }
      n := n + 1;
    }
    assert instrs[..n] == instrs;
    return Ok(instrs);
  }

  /** After the pass no `let` is left; in a tuple any `let` is an error. */
  lemma {:induction false} DeclarationsFolded(done: seq<Instr>, rest: seq<Instr>, ctx: Ctx)
    requires NoKind(done, K.Let)
    ensures DeclarationsFrom(done, rest, ctx).Ok? ==> NoKind(DeclarationsFrom(done, rest, ctx).value, K.Let)
    ensures IsTupleCtx(ctx) && !NoKind(rest, K.Let) ==> DeclarationsFrom(done, rest, ctx).Err?
    decreases |rest|
  {
    if rest != [] {
      if KindOf(rest[0]) != K.Let {
        DeclarationsFolded(done + [rest[0]], rest[1..], ctx);
        if !NoKind(rest, K.Let) {
          var j :| 0 <= j < |rest| && KindOf(rest[j]) == K.Let;
          assert KindOf(rest[1..][j - 1]) == K.Let;
        }
      } else if |rest| > 1 && !IsTupleCtx(ctx) {
        var next := rest[1];
        if next.Symbol? || next.DefineSymbol? {
          DeclarationsFolded(done + [DeclareSymbol(next.name, if next.Symbol? then None else Some(next.right), PosOf(rest[0]))], rest[2..], ctx);
        }
      }
    }
  }

  // ---------------------------------------------------------------- mangle_body

  /** `strip_separators`: the `,` terms are dropped. */
  function StripSeparators(xs: seq<Instr>): (r: seq<Instr>)
    ensures NoKind(r, K.Separator)
    ensures forall i :: i in r <==> i in xs && KindOf(i) != K.Separator
  {
    if xs == [] then []
    else if KindOf(xs[0]) == K.Separator then StripSeparators(xs[1..])
    else [xs[0]] + StripSeparators(xs[1..])
  }

  /** Stripping works piece by piece: the pieces of a split input are stripped apart and joined in order. */
  lemma {:induction false} StripAppend(a: seq<Instr>, b: seq<Instr>)
    ensures StripSeparators(a + b) == StripSeparators(a) + StripSeparators(b)
  {
    if a == [] {
      assert a + b == b;
    } else {
      assert (a + b)[0] == a[0] && (a + b)[1..] == a[1..] + b;
      StripAppend(a[1..], b);
      if KindOf(a[0]) != K.Separator {
        assert [a[0]] + (StripSeparators(a[1..]) + StripSeparators(b))
          == [a[0]] + StripSeparators(a[1..]) + StripSeparators(b);
      }
    }
  }

  /**
   * Hence each entry of the input stays in its place, once, exactly when it is not a `,`: the
   * result is the input with the separators taken out and the order and repetitions kept.
   */
  lemma StripKeeps(a: seq<Instr>, x: Instr, b: seq<Instr>)
    ensures StripSeparators(a + [x] + b)
      == StripSeparators(a) + (if KindOf(x) == K.Separator then [] else [x]) + StripSeparators(b)
  {
    var kept := StripSeparators([x]);
    StripOne(x);
    StripAppend(a, [x]);
    assert StripSeparators(a + [x]) == StripSeparators(a) + kept;
    StripAppend(a + [x], b);
  }

  /** A single entry is kept exactly when it is not a `,`. */
  lemma StripOne(x: Instr)
    ensures StripSeparators([x]) == if KindOf(x) == K.Separator then [] else [x]
  {
    assert [x][1..] == [];
    assert [x] + [] == [x];
  }

  /** How many `;` a tuple holds; its arity is one more. */
  function CountNext(xs: seq<Instr>): nat
  {
    if xs == [] then 0 else (if KindOf(xs[0]) == K.NextElement then 1 else 0) + CountNext(xs[1..])
  }

  /** `mangle_body`: the passes in order, then `strip_separators`; a tuple also records its arity. */
  function MangleSpec(terms: seq<Instr>, ctx: Ctx): Result<(seq<Instr>, nat)>
  {
    var a :- Functions(terms);
    var b :- Structs(a, ctx);
    var c := Calls(b);
    var d :- Accessors(c);
    var e :- Unary(d, ctx);
    var f :- Expressions(e, ctx);
    var g :- Defines(f);
    var h :- Declarations(g, ctx);
    Ok(Finished(h, ctx))
  }

  /** The last step of `mangle_body`: the separators are stripped, and a tuple counts its elements. */
  function Finished(h: seq<Instr>, ctx: Ctx): (seq<Instr>, nat)
  {
    var body := StripSeparators(h);
    (body, if IsTupleCtx(ctx) then CountNext(body) + 1 else 0)
  }

  method MangleBody(terms: seq<Instr>, ctx: Ctx) returns (r: Result<(seq<Instr>, nat)>)
    ensures r == MangleSpec(terms, ctx)
  {
    var a :- MangleFunctions(terms);
    var b :- MangleStruct(a, ctx);
    var c := MangleCalls(b);
    var d :- MangleAccessors(c);
    var e :- MangleUnary(d, ctx);
    var f :- MangleExpressions(e, ctx);
    var g :- MangleDefine(f);
    var h :- MangleDeclaration(g, ctx);
    return Ok(Finished(h, ctx));
  }
}
