// The tree builder of src/parser.js: `parse_body` turns the scanned terms into branch entries,
// recursing into tuples and blocks and handing each finished branch to the mangler, and `parser`
// runs it over a whole file.

module Parser {

  import opened Errors
  import opened Lexer
  import opened Syntax
  import opened Mangle
  import K = Kinds

  // ---- string escapes ----

  /** `s.replace(/pat/g, rep)` for a literal pattern: matches are taken left to right, without overlap. */
  function ReplaceAll(s: string, pat: string, rep: string): (r: string)
    requires |pat| > 0
    decreases |s|
  {
    if |s| < |pat| then s
    else if s[..|pat|] == pat then rep + ReplaceAll(s[|pat|..], pat, rep)
    else [s[0]] + ReplaceAll(s[1..], pat, rep)
  }

  /** `parse_string_escapes`: `\"`, then `\n`, then `\\`, each replaced over the whole text in turn. */
  function ParseStringEscapes(s: string): string
  {
    ReplaceAll(ReplaceAll(ReplaceAll(s, "\\\"", "\""), "\\n", "\n"), "\\\\", "\\")
  }

  /** A text in which the pattern's first character never occurs is left as it is. */
  lemma {:induction false} ReplaceAbsent(s: string, pat: string, rep: string)
    requires |pat| > 0 && pat[0] !in s
    ensures ReplaceAll(s, pat, rep) == s
    decreases |s|
  {
    if |s| >= |pat| {
      assert s[..|pat|][0] == s[0];
      ReplaceAbsent(s[1..], pat, rep);
    }
  }

  /** A replacement no longer than its pattern never lengthens the text. */
  lemma {:induction false} ReplaceShrinks(s: string, pat: string, rep: string)
    requires 0 < |pat| && |rep| <= |pat|
    ensures |ReplaceAll(s, pat, rep)| <= |s|
    decreases |s|
  {
    if |s| >= |pat| {
      if s[..|pat|] == pat {
        ReplaceShrinks(s[|pat|..], pat, rep);
      } else {
        ReplaceShrinks(s[1..], pat, rep);
      }
    }
  }

  /** A text without a backslash comes through unchanged, and no text ever grows. */
  lemma EscapesPlainText(s: string)
    ensures '\\' !in s ==> ParseStringEscapes(s) == s
    ensures |ParseStringEscapes(s)| <= |s|
  {
    var a := ReplaceAll(s, "\\\"", "\"");
    var b := ReplaceAll(a, "\\n", "\n");
    ReplaceShrinks(s, "\\\"", "\"");
    ReplaceShrinks(a, "\\n", "\n");
    ReplaceShrinks(b, "\\\\", "\\");
    if '\\' !in s {
      ReplaceAbsent(s, "\\\"", "\"");
      ReplaceAbsent(a, "\\n", "\n");
      ReplaceAbsent(b, "\\\\", "\\");
    }
  }

  /** The three escapes on their own: `\"` is a quote, `\n` a newline, `\\` a backslash. */
  lemma EscapeTable()
    ensures ParseStringEscapes(['\\', '"']) == ['"']
    ensures ParseStringEscapes(['\\', 'n']) == ['\n']
    ensures ParseStringEscapes(['\\', '\\']) == ['\\']
  {
    var q, n, b := ['\\', '"'], ['\\', 'n'], ['\\', '\\'];
    assert ReplaceAll(q, "\\\"", "\"") == ['"'] by { assert q[2..] == []; }
    assert ReplaceAll(['"'], "\\n", "\n") == ['"'];
    assert ReplaceAll(['"'], "\\\\", "\\") == ['"'];
    assert ReplaceAll(n, "\\\"", "\"") == n by { assert n[..2] == n && n[1..] == ['n']; }
    assert ReplaceAll(n, "\\n", "\n") == ['\n'] by { assert n[2..] == []; }
    assert ReplaceAll(['\n'], "\\\\", "\\") == ['\n'];
    assert ReplaceAll(b, "\\\"", "\"") == b by { assert b[1..] == ['\\']; }
    assert ReplaceAll(b, "\\n", "\n") == b by { assert b[1..] == ['\\']; }
    assert ReplaceAll(b, "\\\\", "\\") == ['\\'] by { assert b[2..] == []; }
  }

  /** Because `\n` is replaced before `\\`, an escaped backslash followed by `n` becomes a backslash
      and a newline, not a backslash and an `n`. */
  lemma EscapedBackslashBeforeN()
    ensures ParseStringEscapes(['\\', '\\', 'n']) == ['\\', '\n']
  {
    var s := ['\\', '\\', 'n'];
    assert ReplaceAll(s, "\\\"", "\"") == s by {
      assert s[..2] == ['\\', '\\'] && s[1..] == ['\\', 'n'];
      assert s[1..][..2] == ['\\', 'n'] && s[1..][1..] == ['n'];
      assert ReplaceAll(s[1..], "\\\"", "\"") == s[1..];
    }
    assert ReplaceAll(s, "\\n", "\n") == ['\\', '\n'] by {
      assert s[..2] != "\\n";
      assert s[1..] == ['\\', 'n'] && s[1..][2..] == [];
    }
    assert ReplaceAll(['\\', '\n'], "\\\\", "\\") == ['\\', '\n'] by {
      assert ['\\', '\n'][1..] == ['\n'];
    }
  }

  // ---- terms to entries ----

  /** `OPERATORS[word]`. */
  function OperatorOf(word: string): Option<K.Op>
  {
    match word
    case "+" => Some(K.OpAdd)
    case "-" => Some(K.OpSub)
    case "*" => Some(K.OpMul)
    case "/" => Some(K.OpDiv)
    case "%" => Some(K.OpMod)
    case "||" => Some(K.OpOr)
    case "&&" => Some(K.OpAnd)
    case "!" => Some(K.OpNot)
    case "==" => Some(K.OpEq)
    case "!=" => Some(K.OpNeq)
    case ">" => Some(K.OpGt)
    case ">=" => Some(K.OpGte)
    case "<" => Some(K.OpLt)
    case "<=" => Some(K.OpLte)
    case _ => None
  }

  /** The source spelling of each operator tag. */
  function OperatorWord(op: K.Op): string
  {
    match op
    case OpAdd => "+" case OpSub => "-" case OpMul => "*" case OpDiv => "/" case OpMod => "%"
    case OpOr => "||" case OpAnd => "&&" case OpNot => "!" case OpEq => "==" case OpNeq => "!="
    case OpGt => ">" case OpGte => ">=" case OpLt => "<" case OpLte => "<="
  }

  /** The operator table is a bijection between the fourteen spellings and the operator tags. */
  lemma OperatorTable(op: K.Op, word: string)
    ensures OperatorOf(OperatorWord(op)) == Some(op)
    ensures OperatorOf(word) == Some(op) ==> word == OperatorWord(op)
  {
  }

  /** Every word the OPERATOR matcher takes is in the table. */
  lemma OperatorWordKnown(s: string)
    requires OperatorLength(s) > 0
    ensures OperatorOf(s[..OperatorLength(s)]).Some?
  {
    var w := s[..OperatorLength(s)];
    if StartsWith(s, "&&") || StartsWith(s, "||") || StartsWith(s, "==") {
      assert w == s[..2];
    } else if s[0] == '<' || s[0] == '>' {
      if |s| > 1 && s[1] == '=' { assert w == [s[0], '=']; } else { assert w == [s[0]]; }
    } else if StartsWith(s, "!=") {
      assert w == "!=";
    } else {
      assert w == [s[0]];
    }
  }

  /** A term `parse_body` handles: never whitespace (the scanner drops it), and an operator word
      from the table. */
  predicate Parseable(t: Term)
  {
    t.matcher != Space && (t.matcher == OperatorM ==> OperatorOf(t.word).Some?)
  }

  predicate AllParseable(ts: seq<Term>)
  {
    forall k :: 0 <= k < |ts| ==> Parseable(ts[k])
  }

  /** A term that becomes one entry of the branch, as opposed to a comment or a bracket. */
  predicate IsPlain(t: Term)
  {
    Parseable(t)
    && t.matcher !in {SingleComment, TupleStart, TupleEnd, BlockStart, BlockEnd}
  }

  function TermPos(t: Term): Pos { At(t.line, t.column) }

  /** `word.slice(1, -1)`: the text between the quotes; empty for a quote left open. */
  function Unquote(word: string): (r: string)
    ensures |word| >= 2 ==> r == word[1..|word| - 1]
    ensures |word| < 2 ==> r == []
  {
    if |word| < 2 then [] else word[1..|word| - 1]
  }

  /** `KINDS[matcher.name]` for the matchers `parse_body` sends through its default branch. */
  function KeywordKindOf(m: Matcher): (r: KeywordKind)
    requires m in {NextElementM, DefineM, ArrowM, LetM, SeparatorM, StructM, MemberAccessorM}
  {
    match m
    case NextElementM => K.NextElement
    case DefineM => K.Define
    case ArrowM => K.Arrow
    case LetM => K.Let
    case SeparatorM => K.Separator
    case StructM => K.Struct
    case MemberAccessorM => K.MemberAccessor
  }

  /** The kind tag each matcher's entries carry, named after the matcher. */
  function MatcherKind(m: Matcher): K.Kind
  {
    match m
    case PatternM => K.Pattern
    case SymbolM => K.Symbol
    case TypenameM => K.Typename
    case StringM => K.String
    case NumberM => K.Number
    case BooleanM => K.Boolean
    case OperatorM => K.Operator
    case NextElementM => K.NextElement
    case DefineM => K.Define
    case ArrowM => K.Arrow
    case LetM => K.Let
    case SeparatorM => K.Separator
    case StructM => K.Struct
    case MemberAccessorM => K.MemberAccessor
    case TupleStart => K.Tuple
    case BlockStart => K.Block
    case _ => K.NotFound
  }

  /** The entry `parse_body` pushes for a plain term: the kind named by its matcher, at the term's
      line and column, carrying its word in the form its kind needs. */
  function TermInstr(t: Term): (r: Instr)
    requires IsPlain(t)
    ensures KindOf(r) == MatcherKind(t.matcher) && PosOf(r) == TermPos(t)
    ensures t.matcher in {PatternM, SymbolM, TypenameM} ==> r.name == t.word
    ensures t.matcher == StringM ==> r.text == ParseStringEscapes(Unquote(t.word))
    ensures t.matcher == OperatorM ==> OperatorWord(r.op) == t.word
    ensures t.matcher == BooleanM ==> (r.state <==> t.word == "true")
  {
    match t.matcher
    case PatternM => Pattern(t.word, TermPos(t))
    case SymbolM => Symbol(t.word, TermPos(t))
    case TypenameM => Typename(t.word, TermPos(t))
    case StringM => String(ParseStringEscapes(Unquote(t.word)), TermPos(t))
    case NumberM => Number(t.word, TermPos(t))
    case BooleanM => Boolean(t.word == "true", TermPos(t))
    case OperatorM =>
      OperatorTable(OperatorOf(t.word).value, t.word);
      Operator(OperatorOf(t.word).value, TermPos(t))
    case NextElementM | DefineM | ArrowM | LetM | SeparatorM | StructM | MemberAccessorM =>
      Keyword(KeywordKindOf(t.matcher), TermPos(t))
  }

  function TermInstrs(ts: seq<Term>): (r: seq<Instr>)
    requires forall k :: 0 <= k < |ts| ==> IsPlain(ts[k])
    ensures |r| == |ts| && forall k :: 0 <= k < |ts| ==> r[k] == TermInstr(ts[k])
  {
    if ts == [] then [] else TermInstrs(ts[..|ts| - 1]) + [TermInstr(ts[|ts| - 1])]
  }

  /** Every term the scanner produces can be handed to `parse_body`. */
  lemma ScannedParseable(line: string, t: Term)
    requires Scanned(line, t) && t.matcher != Space
    ensures Parseable(t)
  {
    if t.matcher == OperatorM {
      var s := line[t.column..];
      FirstMatchSound(s);
      assert OperatorLength(s) == |t.word|;
      assert t.word == s[..OperatorLength(s)];
      OperatorWordKnown(s);
    }
  }

  lemma TermsParseable(lines: seq<string>)
    ensures TermsFrom(lines, 0).Ok? ==> AllParseable(TermsFrom(lines, 0).value)
  {
    TermsFromSound(lines, 0);
    if TermsFrom(lines, 0).Ok? {
      var ts := TermsFrom(lines, 0).value;
      forall k | 0 <= k < |ts|
        ensures Parseable(ts[k])
      {
        ScannedParseable(lines[ts[k].line], ts[k]);
      }
    }
  }

  // ---- parse_body ----

  /** A finished branch: its mangled instructions, its arity (tuples only), and how many terms of its
      slice `parse_body` consumed, its closing bracket included. */
  datatype Parsed = Parsed(body: seq<Instr>, length: nat, consumed: nat)

  /** The bracket that ends a branch of the given context. */
  function Closer(ctx: Ctx): Matcher
  {
    if ctx == TupleCtx then TupleEnd else BlockEnd
  }

  /** `mangle(branch, options); return consumed`. */
  function Finish(terms: seq<Instr>, ctx: Ctx, consumed: nat): (r: Result<Parsed>)
    ensures r.Ok? ==> r.value.consumed == consumed
  {
    match MangleSpec(terms, ctx)
    case Err(e) => Err(e)
    case Ok(m) => Ok(Parsed(m.0, m.1, consumed))
  }

  /** The index of the first term after `sub[k - 1]` that is not on `line`. */
  function SkipFrom(sub: seq<Term>, line: nat, k: nat): (r: nat)
    requires k <= |sub|
    ensures k <= r <= |sub|
    ensures forall j :: k <= j < r ==> sub[j].line == line
    ensures r < |sub| ==> sub[r].line != line
    decreases |sub| - k
  {
    if k < |sub| && sub[k].line == line then SkipFrom(sub, line, k + 1) else k
  }

  /** Where scanning resumes after a comment at `n`: the first term of a later line. */
  function SkipLine(sub: seq<Term>, n: nat): (r: nat)
    requires n < |sub|
    ensures n < r <= |sub|
  {
    SkipFrom(sub, sub[n].line, n + 1)
  }

  predicate IsOpener(m: Matcher) { m == TupleStart || m == BlockStart }

  predicate IsCloser(m: Matcher) { m == TupleEnd || m == BlockEnd }

  /** The context a bracket opens. */
  function OpenedCtx(m: Matcher): Ctx
  {
    if m == TupleStart then TupleCtx else BlockCtx
  }

  /** The twig pushed for a finished nested branch. */
  function Twig(m: Matcher, pos: Pos, child: Parsed): Instr
  {
    if m == TupleStart then Tuple(child.body, child.length, pos) else Block(child.body, pos)
  }

  /** A closing bracket that does not close the current context. */
  function StrayCloser(m: Matcher, pos: Pos): Error
  {
    if m == TupleEnd then CompileError("Found tuple end without being in a tuple.", pos)
    else CompileError("Found block end without being in a block.", pos)
  }

  /** `parse_body` over the slice of `sub` that starts at `base`, at index `n` of `sub`, with `terms`
      already pushed onto the branch. A nested tuple or block is parsed over the slice that starts after
      its opening bracket, and the loop resumes after the terms the nested call consumed. */
  function ParseFrom(sub: seq<Term>, base: nat, n: nat, ctx: Ctx, terms: seq<Instr>): (r: Result<Parsed>)
    requires base <= n <= |sub| && AllParseable(sub)
    ensures r.Ok? ==> n - base <= r.value.consumed <= |sub| - base
    decreases |sub| - n
  {
    if n == |sub| then Finish(terms, ctx, n - base)
    else
      var t := sub[n];
      if t.matcher == SingleComment then ParseFrom(sub, base, SkipLine(sub, n), ctx, terms)
      else if IsOpener(t.matcher) then
        var child := ParseFrom(sub, n + 1, n + 1, OpenedCtx(t.matcher), []);
        if child.Err? then child
        else ParseFrom(sub, base, n + child.value.consumed + 1, ctx, terms + [Twig(t.matcher, TermPos(t), child.value)])
      else if IsCloser(t.matcher) then
        if t.matcher == Closer(ctx) then Finish(terms, ctx, n + 1 - base)
        else Err(StrayCloser(t.matcher, TermPos(t)))
      else ParseFrom(sub, base, n + 1, ctx, terms + [TermInstr(t)])
  }

  /** `parse_body(sub.slice(base), branch, options)`. */
  function ParseSpec(sub: seq<Term>, base: nat, ctx: Ctx): Result<Parsed>
    requires base <= |sub| && AllParseable(sub)
  {
    ParseFrom(sub, base, base, ctx, [])
  }

  /** One step of `parse_body` at a term that is not an opening bracket. */
  lemma ParseStep(sub: seq<Term>, base: nat, n: nat, ctx: Ctx, terms: seq<Instr>)
    requires base <= n < |sub| && AllParseable(sub)
    ensures sub[n].matcher == SingleComment ==>
      ParseFrom(sub, base, n, ctx, terms) == ParseFrom(sub, base, SkipLine(sub, n), ctx, terms)
    ensures IsCloser(sub[n].matcher) ==>
      ParseFrom(sub, base, n, ctx, terms) == (if sub[n].matcher == Closer(ctx) then Finish(terms, ctx, n + 1 - base)
        else Err(StrayCloser(sub[n].matcher, TermPos(sub[n]))))
    ensures IsPlain(sub[n]) ==>
      ParseFrom(sub, base, n, ctx, terms) == ParseFrom(sub, base, n + 1, ctx, terms + [TermInstr(sub[n])])
  {
  }

  /** One step of `parse_body` at an opening bracket, given the nested branch's outcome. */
  lemma NestedStep(sub: seq<Term>, base: nat, n: nat, ctx: Ctx, terms: seq<Instr>, child: Result<Parsed>)
    requires base <= n < |sub| && AllParseable(sub) && IsOpener(sub[n].matcher)
    requires child == ParseSpec(sub, n + 1, OpenedCtx(sub[n].matcher))
    ensures child.Err? ==> ParseFrom(sub, base, n, ctx, terms) == child
    ensures child.Ok? ==> (child.value.consumed <= |sub| - n - 1 && ParseFrom(sub, base, n, ctx, terms)
      == ParseFrom(sub, base, n + child.value.consumed + 1, ctx, terms + [Twig(sub[n].matcher, TermPos(sub[n]), child.value)]))
  {
    var t := sub[n];
    assert t.matcher != SingleComment;
    assert child == ParseFrom(sub, n + 1, n + 1, OpenedCtx(t.matcher), []);
    if child.Ok? {
      assert child.value.consumed <= |sub| - n - 1;
    }
  }

  /** `parse_body(sub_terms, branch, options)`, where `sub_terms` is `sub.slice(base)`. */
  method ParseBody(sub: seq<Term>, base: nat, ctx: Ctx) returns (r: Result<Parsed>)
    requires base <= |sub| && AllParseable(sub)
    ensures r == ParseSpec(sub, base, ctx)
    decreases |sub| - base, 2
  {
    var terms: seq<Instr> := [];
    var n: nat := base;
    while n < |sub|
      invariant base <= n <= |sub|
      invariant ParseFrom(sub, base, n, ctx, terms) == ParseSpec(sub, base, ctx)
      decreases |sub| - n
    {
      if IsCloser(sub[n].matcher) {
        r := CloseBody(sub, base, n, ctx, terms);
        return;
      }
      var next := ParseTerm(sub, base, n, ctx, terms);
      if next.Err? {
        return Err(next.error);
      }
      n, terms := next.value.0, next.value.1;
    }
    r := EndBody(sub, base, ctx, terms);
  }

  /** The `parse_body` loop at the end of its slice: the branch is finished with every term consumed. */
  method EndBody(sub: seq<Term>, base: nat, ctx: Ctx, terms: seq<Instr>) returns (r: Result<Parsed>)
    requires base <= |sub| && AllParseable(sub)
    ensures r == ParseFrom(sub, base, |sub|, ctx, terms)
  {
    r := FinishBody(terms, ctx, |sub| - base);
  }

  /** The `parse_body` loop at a closing bracket: its own closer finishes the branch, any other is
      an error. */
  method CloseBody(sub: seq<Term>, base: nat, n: nat, ctx: Ctx, terms: seq<Instr>) returns (r: Result<Parsed>)
    requires base <= n < |sub| && AllParseable(sub) && IsCloser(sub[n].matcher)
    ensures r == ParseFrom(sub, base, n, ctx, terms)
  {
    var t := sub[n];
    ParseStep(sub, base, n, ctx, terms);
    if t.matcher == Closer(ctx) {
      r := FinishBody(terms, ctx, n + 1 - base);
    } else {
      r := Err(StrayCloser(t.matcher, TermPos(t)));
    }
  }

  /** One round of the `parse_body` loop at a term that does not end the branch: a comment skips the
      rest of its line, a bracket parses the nested branch it opens, and any other term is pushed. The
      result is the index of the next term and the branch's terms so far. */
  method ParseTerm(sub: seq<Term>, base: nat, n: nat, ctx: Ctx, terms: seq<Instr>) returns (r: Result<(nat, seq<Instr>)>)
    requires base <= n < |sub| && AllParseable(sub) && !IsCloser(sub[n].matcher)
    ensures r.Ok? ==> (n < r.value.0 <= |sub|
      && ParseFrom(sub, base, r.value.0, ctx, r.value.1) == ParseFrom(sub, base, n, ctx, terms))
    ensures r.Err? ==> ParseFrom(sub, base, n, ctx, terms) == Err(r.error)
    decreases |sub| - base, 1
  {
    var t := sub[n];
    if t.matcher == SingleComment {
      ParseStep(sub, base, n, ctx, terms);
      var k := SkipComment(sub, n);
      return Ok((k, terms));
    } else if IsOpener(t.matcher) {
      r := ParseNested(sub, base, n, ctx, terms);
    } else {
      ParseStep(sub, base, n, ctx, terms);
      return Ok((n + 1, terms + [TermInstr(t)]));
    }
  }

  /** `n += parse_body(sub_terms.slice(++n), twig, ...)`: the nested branch is parsed from the term
      after its bracket, and the loop goes on after the terms it consumed. */
  method ParseNested(sub: seq<Term>, base: nat, n: nat, ctx: Ctx, terms: seq<Instr>) returns (r: Result<(nat, seq<Instr>)>)
    requires base <= n < |sub| && AllParseable(sub) && IsOpener(sub[n].matcher)
    ensures r.Ok? ==> (n < r.value.0 <= |sub|
      && ParseFrom(sub, base, r.value.0, ctx, r.value.1) == ParseFrom(sub, base, n, ctx, terms))
    ensures r.Err? ==> ParseFrom(sub, base, n, ctx, terms) == Err(r.error)
    decreases |sub| - base, 0
  {
    var t := sub[n];
    var child := ParseBody(sub, n + 1, OpenedCtx(t.matcher));
    NestedStep(sub, base, n, ctx, terms, child);
    if child.Err? {
      return Err(child.error);
    }
    return Ok((n + child.value.consumed + 1, terms + [Twig(t.matcher, TermPos(t), child.value)]));
  }

  /** `while (++n < sub_terms.length && sub_terms[n].line === current_line);` */
  method SkipComment(sub: seq<Term>, n: nat) returns (k: nat)
    requires n < |sub|
    ensures k == SkipLine(sub, n)
  {
    k := n + 1;
    while k < |sub| && sub[k].line == sub[n].line
      invariant n < k <= |sub|
      invariant SkipFrom(sub, sub[n].line, k) == SkipLine(sub, n)
      decreases |sub| - k
    {
      k := k + 1;
    }
  }

  method FinishBody(terms: seq<Instr>, ctx: Ctx, consumed: nat) returns (r: Result<Parsed>)
    ensures r == Finish(terms, ctx, consumed)
  {
    var m := MangleBody(terms, ctx);
    if m.Err? {
      return Err(m.error);
    }
    return Ok(Parsed(m.value.0, m.value.1, consumed));
  }

  // ---- properties of parse_body ----

  /** The outcome of a `parse_body` over the slice from `base` ends either at the end of `sub` or
      right after a bracket that closes `ctx`. */
  predicate StopsAtCloser(sub: seq<Term>, base: nat, ctx: Ctx, r: Result<Parsed>)
  {
    r.Ok? ==> (base + r.value.consumed == |sub|
      || (0 < r.value.consumed && base + r.value.consumed <= |sub|
          && sub[base + r.value.consumed - 1].matcher == Closer(ctx)))
  }

  /** `parse_body` stops either at the end of its slice or right after the bracket that closes its own
      context, so the caller resumes exactly after the matching closer. */
  lemma {:induction false} ParseStops(sub: seq<Term>, base: nat, n: nat, ctx: Ctx, terms: seq<Instr>)
    requires base <= n <= |sub| && AllParseable(sub)
    ensures StopsAtCloser(sub, base, ctx, ParseFrom(sub, base, n, ctx, terms))
    decreases |sub| - n, 1
  {
    if n == |sub| || IsCloser(sub[n].matcher) {
      StopsAtEnd(sub, base, n, ctx, terms);
    } else {
      var t := sub[n];
      if IsOpener(t.matcher) {
        ParseStopsNested(sub, base, n, ctx, terms);
      } else {
        ParseStep(sub, base, n, ctx, terms);
        if t.matcher == SingleComment {
          ParseStops(sub, base, SkipLine(sub, n), ctx, terms);
        } else {
          ParseStops(sub, base, n + 1, ctx, terms + [TermInstr(t)]);
        }
      }
    }
  }

  /** At the end of `sub` or at a closing bracket the branch finishes or fails there. */
  lemma StopsAtEnd(sub: seq<Term>, base: nat, n: nat, ctx: Ctx, terms: seq<Instr>)
    requires base <= n <= |sub| && AllParseable(sub) && (n == |sub| || IsCloser(sub[n].matcher))
    ensures StopsAtCloser(sub, base, ctx, ParseFrom(sub, base, n, ctx, terms))
  {
    if n == |sub| {
      assert ParseFrom(sub, base, n, ctx, terms) == Finish(terms, ctx, n - base);
      FinishStops(sub, base, ctx, terms, n - base);
    } else {
      ParseStep(sub, base, n, ctx, terms);
      if sub[n].matcher == Closer(ctx) {
        FinishStops(sub, base, ctx, terms, n + 1 - base);
      }
    }
  }

  /** The branch ends where it is finished: at the end of `sub` or right after its own closer. */
  lemma FinishStops(sub: seq<Term>, base: nat, ctx: Ctx, terms: seq<Instr>, consumed: nat)
    requires base + consumed == |sub| || (0 < consumed && base + consumed <= |sub| && sub[base + consumed - 1].matcher == Closer(ctx))
    ensures StopsAtCloser(sub, base, ctx, Finish(terms, ctx, consumed))
  {
  }

  lemma {:induction false} ParseStopsNested(sub: seq<Term>, base: nat, n: nat, ctx: Ctx, terms: seq<Instr>)
    requires base <= n < |sub| && AllParseable(sub) && IsOpener(sub[n].matcher)
    ensures StopsAtCloser(sub, base, ctx, ParseFrom(sub, base, n, ctx, terms))
    decreases |sub| - n, 0
  {
    var t := sub[n];
    var child := ParseSpec(sub, n + 1, OpenedCtx(t.matcher));
    NestedStep(sub, base, n, ctx, terms, child);
    if child.Ok? {
      var next := n + child.value.consumed + 1;
      var pushed := terms + [Twig(t.matcher, TermPos(t), child.value)];
      ParseStops(sub, base, next, ctx, pushed);
      StopsSame(sub, base, ctx, ParseFrom(sub, base, next, ctx, pushed), ParseFrom(sub, base, n, ctx, terms));
    }
  }

  /** Where a parse stops depends only on its outcome. */
  lemma StopsSame(sub: seq<Term>, base: nat, ctx: Ctx, r: Result<Parsed>, r': Result<Parsed>)
    requires StopsAtCloser(sub, base, ctx, r) && r == r'
    ensures StopsAtCloser(sub, base, ctx, r')
  {
  }

  predicate AllPlain(ts: seq<Term>)
  {
    forall k :: 0 <= k < |ts| ==> IsPlain(ts[k])
  }

  /** A run of plain terms is pushed one by one, in order. */
  lemma {:induction false} PlainRun(sub: seq<Term>, base: nat, n: nat, m: nat, ctx: Ctx, terms: seq<Instr>)
    requires base <= n <= m <= |sub| && AllParseable(sub) && AllPlain(sub[n..m])
    ensures ParseFrom(sub, base, n, ctx, terms) == ParseFrom(sub, base, m, ctx, terms + TermInstrs(sub[n..m]))
    decreases m - n
  {
    if n < m {
      var t := sub[n];
      assert sub[n..m][0] == t;
      ParseStep(sub, base, n, ctx, terms);
      assert sub[n + 1..m] == sub[n..m][1..];
      PlainRun(sub, base, n + 1, m, ctx, terms + [TermInstr(t)]);
      PushRun(terms, TermInstr(t), sub[n..m]);
    } else {
      assert sub[n..m] == [];
      assert terms + [] == terms;
    }
  }

  /** The instructions of a run are those of its first term followed by those of the rest. */
  lemma {:induction false} TermInstrsCons(run: seq<Term>)
    requires run != [] && AllPlain(run)
    ensures TermInstrs(run) == [TermInstr(run[0])] + TermInstrs(run[1..])
  {
    forall k | 0 <= k < |run[1..]|
      ensures IsPlain(run[1..][k])
    {
      assert run[1..][k] == run[k + 1];
    }
    var a := TermInstrs(run[1..]);
    var b := TermInstrs(run);
    var c := [TermInstr(run[0])] + a;
    forall k | 0 <= k < |b|
      ensures b[k] == c[k]
    {
      if k > 0 {
        assert run[1..][k - 1] == run[k];
        assert c[k] == a[k - 1];
      }
    }
    assert b == c;
  }

  lemma {:induction false} PushRun(terms: seq<Instr>, i: Instr, run: seq<Term>)
    requires run != [] && AllPlain(run) && TermInstr(run[0]) == i
    ensures terms + [i] + TermInstrs(run[1..]) == terms + TermInstrs(run)
  {
    TermInstrsCons(run);
    ConsAssoc(terms, i, TermInstrs(run[1..]));
  }

  lemma ConsAssoc(terms: seq<Instr>, i: Instr, rest: seq<Instr>)
    ensures terms + [i] + rest == terms + ([i] + rest)
  {
  }

  /** A closing bracket after plain terms ends the branch there when it closes the branch's own context,
      whatever follows it (at file level, a `}` makes the parser ignore the rest of the file), and is
      rejected otherwise. */
  lemma ClosingBracket(sub: seq<Term>, c: nat, ctx: Ctx)
    requires c < |sub| && AllParseable(sub) && AllPlain(sub[..c]) && IsCloser(sub[c].matcher)
    ensures ParseSpec(sub, 0, ctx)
      == if sub[c].matcher == Closer(ctx) then Finish(TermInstrs(sub[..c]), ctx, c + 1)
         else Err(StrayCloser(sub[c].matcher, TermPos(sub[c])))
  {
    assert sub[0..c] == sub[..c];
    PlainRun(sub, 0, 0, c, ctx, []);
    assert [] + TermInstrs(sub[..c]) == TermInstrs(sub[..c]);
    ParseStep(sub, 0, c, ctx, TermInstrs(sub[..c]));
  }

  /** A tuple left open at the end of the input is accepted: its branch is mangled as if it were
      closed after the last term. */
  lemma UnclosedTuple(sub: seq<Term>)
    requires |sub| > 0 && sub[0].matcher == TupleStart && AllParseable(sub) && AllPlain(sub[1..])
    ensures var inner := Finish(TermInstrs(sub[1..]), TupleCtx, |sub| - 1);
      ParseSpec(sub, 0, FileCtx)
        == if inner.Err? then inner
           else Finish([Tuple(inner.value.body, inner.value.length, TermPos(sub[0]))], FileCtx, |sub|)
  {
    var child := ParseSpec(sub, 1, TupleCtx);
    RunToEnd(sub, 1, TupleCtx);
    NestedStep(sub, 0, 0, FileCtx, [], child);
    if child.Ok? {
      var twig := Tuple(child.value.body, child.value.length, TermPos(sub[0]));
      assert Twig(sub[0].matcher, TermPos(sub[0]), child.value) == twig;
      assert [] + [twig] == [twig];
      assert ParseSpec(sub, 0, FileCtx) == ParseFrom(sub, 0, |sub|, FileCtx, [twig]);
    }
  }

  /** With only plain terms from `base` on, `parse_body` pushes them all and mangles the branch. */
  lemma RunToEnd(sub: seq<Term>, base: nat, ctx: Ctx)
    requires base <= |sub| && AllParseable(sub) && AllPlain(sub[base..])
    ensures ParseSpec(sub, base, ctx) == Finish(TermInstrs(sub[base..]), ctx, |sub| - base)
  {
    assert sub[base..|sub|] == sub[base..];
    PlainRun(sub, base, base, |sub|, ctx, []);
    assert [] + TermInstrs(sub[base..]) == TermInstrs(sub[base..]);
  }

  /** A comment hides every term after it on its line, brackets included: parsing goes on with the
      first term of a later line. */
  lemma CommentHidesLine(sub: seq<Term>, c: nat, e: nat, ctx: Ctx)
    requires c < e <= |sub| && AllParseable(sub) && AllPlain(sub[..c]) && sub[c].matcher == SingleComment
    requires forall j :: c < j < e ==> sub[j].line == sub[c].line
    requires e < |sub| ==> sub[e].line != sub[c].line
    ensures ParseSpec(sub, 0, ctx) == ParseFrom(sub, 0, e, ctx, TermInstrs(sub[..c]))
  {
    assert sub[0..c] == sub[..c];
    PlainRun(sub, 0, 0, c, ctx, []);
    assert [] + TermInstrs(sub[..c]) == TermInstrs(sub[..c]);
    ParseStep(sub, 0, c, ctx, TermInstrs(sub[..c]));
    SkipHidden(sub, sub[c].line, c + 1, e);
  }

  lemma {:induction false} SkipHidden(sub: seq<Term>, line: nat, k: nat, e: nat)
    requires k <= e <= |sub| && forall j :: k <= j < e ==> sub[j].line == line
    requires e < |sub| ==> sub[e].line != line
    ensures SkipFrom(sub, line, k) == e
    decreases e - k
  {
    if k < e {
      SkipHidden(sub, line, k + 1, e);
    }
  }

  // ---- the whole file ----

  /** `parser(raw)`: the file's terms parsed as a block, giving the root's instructions. */
  function ParseProgram(raw: string): Result<seq<Instr>>
  {
    var lines := SplitLines(raw);
    match TermsFrom(lines, 0)
    case Err(e) => Err(e)
    case Ok(ts) =>
      TermsParseable(lines);
      match ParseSpec(ts, 0, FileCtx)
      case Err(e) => Err(e)
      case Ok(p) => Ok(p.body)
  }

  method Parse(raw: string) returns (r: Result<seq<Instr>>)
    ensures r == ParseProgram(raw)
  {
    var terms := GetTerms(raw);
    if terms.Err? {
      return Err(terms.error);
    }
    TermsParseable(SplitLines(raw));
    var tree := ParseBody(terms.value, 0, FileCtx);
    if tree.Err? {
      return Err(tree.error);
    }
    return Ok(tree.value.body);
  }
}
