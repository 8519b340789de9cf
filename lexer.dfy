// The term scanner of src/parser.js: the TermMatcher table, `get_terms`, and the line split it uses.

module Lexer {
  import opened Errors

  /** One constructor per registered TermMatcher. */
  datatype Matcher =
    | Space | SingleComment | PatternM | TupleStart | TupleEnd | BlockStart | BlockEnd
    | NextElementM | StringM | DefineM | SymbolM | TypenameM | OperatorM | NumberM | BooleanM
    | ArrowM | LetM | SeparatorM | StructM | MemberAccessorM

  function Priority(m: Matcher): int
  {
    match m
    case Space => 2000
    case SingleComment => 1000
    case PatternM => 200
    case TupleStart => 900
    case TupleEnd => 900
    case BlockStart => 900
    case BlockEnd => 900
    case NextElementM => 900
    case StringM => 800
    case DefineM => 900
    case SymbolM => -200
    case TypenameM => -100
    case OperatorM => 700
    case NumberM => 800
    case BooleanM => 500
    case ArrowM => 1200
    case LetM => 600
    case SeparatorM => 700
    case StructM => 600
    case MemberAccessorM => 1400
  }

  /** Position of each matcher in the order the matchers are registered. */
  function Registration(m: Matcher): nat
  {
    match m
    case Space => 0
    case SingleComment => 1
    case PatternM => 2
    case TupleStart => 3
    case TupleEnd => 4
    case BlockStart => 5
    case BlockEnd => 6
    case NextElementM => 7
    case StringM => 8
    case DefineM => 9
    case SymbolM => 10
    case TypenameM => 11
    case OperatorM => 12
    case NumberM => 13
    case BooleanM => 14
    case ArrowM => 15
    case LetM => 16
    case SeparatorM => 17
    case StructM => 18
    case MemberAccessorM => 19
  }

  /** The matchers in the order they are tried: the registration list after the stable sort by descending priority. */
  const Matchers: seq<Matcher> := [
    Space, MemberAccessorM, ArrowM, SingleComment,
    TupleStart, TupleEnd, BlockStart, BlockEnd, NextElementM, DefineM,
    StringM, NumberM, OperatorM, SeparatorM, LetM, StructM, BooleanM,
    PatternM, TypenameM, SymbolM
  ]

  /** `a` comes before `b` in a stable sort by descending priority. */
  predicate SortsBefore(a: Matcher, b: Matcher)
  {
    Priority(a) > Priority(b) || (Priority(a) == Priority(b) && Registration(a) < Registration(b))
  }

  /** The try order is exactly the stable descending-priority sort of the matchers. */
  lemma MatchersStablySorted()
    ensures |Matchers| == 20
    ensures forall i :: 0 <= i < |Matchers| - 1 ==> SortsBefore(Matchers[i], Matchers[i + 1])
  {
  }

  /** Every registered matcher is tried. */
  lemma EveryMatcherTried(m: Matcher)
    ensures m in Matchers
  {
    match m
    case Space => assert Matchers[0] == m;
    case MemberAccessorM => assert Matchers[1] == m;
    case ArrowM => assert Matchers[2] == m;
    case SingleComment => assert Matchers[3] == m;
    case TupleStart => assert Matchers[4] == m;
    case TupleEnd => assert Matchers[5] == m;
    case BlockStart => assert Matchers[6] == m;
    case BlockEnd => assert Matchers[7] == m;
    case NextElementM => assert Matchers[8] == m;
    case DefineM => assert Matchers[9] == m;
    case StringM => assert Matchers[10] == m;
    case NumberM => assert Matchers[11] == m;
    case OperatorM => assert Matchers[12] == m;
    case SeparatorM => assert Matchers[13] == m;
    case LetM => assert Matchers[14] == m;
    case StructM => assert Matchers[15] == m;
    case BooleanM => assert Matchers[16] == m;
    case PatternM => assert Matchers[17] == m;
    case TypenameM => assert Matchers[18] == m;
    case SymbolM => assert Matchers[19] == m;
  }

  // ---- character classes of the regular expressions ----

  /** JavaScript's `\s`. */
  predicate IsSpace(c: char)
  {
    c == ' ' || c == '\t' || c == '\n' || c == '\r' || c == '\U{000B}' || c == '\U{000C}'
    || c == '\U{00A0}' || c == '\U{1680}' || ('\U{2000}' <= c <= '\U{200A}')
    || c == '\U{2028}' || c == '\U{2029}' || c == '\U{202F}' || c == '\U{205F}'
    || c == '\U{3000}' || c == '\U{FEFF}'
  }

  predicate IsDigit(c: char) { '0' <= c <= '9' }

  predicate IsLower(c: char) { 'a' <= c <= 'z' }

  predicate IsUpper(c: char) { 'A' <= c <= 'Z' }

  /** JavaScript's `\w`. */
  predicate IsWordChar(c: char) { IsLower(c) || IsUpper(c) || IsDigit(c) || c == '_' }

  predicate IsSymbolChar(c: char) { IsLower(c) || IsDigit(c) || c == '_' }

  predicate StartsWith(s: string, p: string) { |p| <= |s| && s[..|p|] == p }

  /** Length of the longest prefix of `s` whose characters all satisfy `p`. */
  function Span(s: string, p: char -> bool): (r: nat)
    ensures r <= |s|
  {
    if s == [] || !p(s[0]) then 0 else 1 + Span(s[1..], p)
  }

  /** `Span` takes exactly the characters that satisfy `p`, up to the first that does not. */
  lemma {:induction false} SpanMaximal(s: string, p: char -> bool)
    ensures forall k :: 0 <= k < Span(s, p) ==> p(s[k])
    ensures Span(s, p) < |s| ==> !p(s[Span(s, p)])
  {
    if s != [] && p(s[0]) {
      SpanMaximal(s[1..], p);
    }
  }

  /** `(?:[\w_\d]|::)*`, matched greedily. */
  function PatternTail(s: string): (r: nat)
    ensures r <= |s|
  {
    if s != [] && IsWordChar(s[0]) then 1 + PatternTail(s[1..])
    else if StartsWith(s, "::") then 2 + PatternTail(s[2..])
    else 0
  }

  /** `-?\d+(?:\.\d*)?` */
  function NumberLength(s: string): (r: nat)
    ensures r <= |s|
  {
    var sign := if s != [] && s[0] == '-' then 1 else 0;
    var digits := Span(s[sign..], IsDigit);
    if digits == 0 then 0
    else if sign + digits < |s| && s[sign + digits] == '.' then
      sign + digits + 1 + Span(s[sign + digits + 1..], IsDigit)
    else sign + digits
  }

  /** `&&|\|\||==|[<>]=?|!=|[+\-*\/!%]`, alternatives tried left to right. */
  function OperatorLength(s: string): (r: nat)
    ensures r <= |s|
  {
    if StartsWith(s, "&&") || StartsWith(s, "||") || StartsWith(s, "==") then 2
    else if s != [] && (s[0] == '<' || s[0] == '>') then
      (if |s| > 1 && s[1] == '=' then 2 else 1)
    else if StartsWith(s, "!=") then 2
    else if s != [] && s[0] in "+-*/!%" then 1
    else 0
  }

  /** Length of the prefix of `s` that matcher `m` accepts; 0 when it does not match. */
  function MatchLength(m: Matcher, s: string): (r: nat)
    ensures r <= |s|
  {
    match m
    case Space => Span(s, IsSpace)
    case SingleComment => if StartsWith(s, "//") then 2 else 0
    case PatternM =>
      if |s| >= 2 && (s[0] == '\'' || s[0] == '#') && IsWordChar(s[1]) then 2 + PatternTail(s[2..]) else 0
    case TupleStart => if StartsWith(s, "(") then 1 else 0
    case TupleEnd => if StartsWith(s, ")") then 1 else 0
    case BlockStart => if StartsWith(s, "{") then 1 else 0
    case BlockEnd => if StartsWith(s, "}") then 1 else 0
    case NextElementM => if StartsWith(s, ";") then 1 else 0
    case StringM => if StartsWith(s, "\"") then 1 else 0
    case DefineM => if StartsWith(s, ":") then 1 else 0
    case SymbolM => if s != [] && (IsLower(s[0]) || s[0] == '_') then 1 + Span(s[1..], IsSymbolChar) else 0
    case TypenameM => if s != [] && IsUpper(s[0]) then 1 + Span(s[1..], IsWordChar) else 0
    case OperatorM => OperatorLength(s)
    case NumberM => NumberLength(s)
    case BooleanM => if StartsWith(s, "true") then 4 else if StartsWith(s, "false") then 5 else 0
    case ArrowM => if StartsWith(s, "=>") then 2 else 0
    case LetM => if StartsWith(s, "let") then 3 else 0
    case SeparatorM => if StartsWith(s, ",") then 1 else 0
    case StructM => if StartsWith(s, "struct") then 6 else 0
    case MemberAccessorM => if StartsWith(s, ".") && !StartsWith(s, "..") then 1 else 0
  }

  /** The first matcher of `ms` that accepts a nonempty prefix of `s`, with the length of that prefix;
      None when none of them does. */
  function FirstMatchIn(ms: seq<Matcher>, s: string): (r: Option<(Matcher, nat)>)
    ensures r.Some? ==> 0 < r.value.1 <= |s|
  {
    if ms == [] then None
    else
      var n := MatchLength(ms[0], s);
      if n > 0 then Some((ms[0], n)) else FirstMatchIn(ms[1..], s)
  }

  /** The matcher that wins at the start of `s` and the length of the word it takes:
      the loop over the priority-sorted matchers in `get_terms`. */
  function FirstMatch(s: string): (r: Option<(Matcher, nat)>)
    ensures r.Some? ==> 0 < r.value.1 <= |s|
  {
    FirstMatchIn(Matchers, s)
  }

  /** What `FirstMatchIn` returns: the first accepting matcher of `ms`, or None when all reject. */
  lemma {:induction false} FirstMatchInSpec(ms: seq<Matcher>, s: string)
    ensures FirstMatchIn(ms, s).Some? ==> exists j :: (0 <= j < |ms|
      && FirstMatchIn(ms, s).value == (ms[j], MatchLength(ms[j], s))
      && forall k :: 0 <= k < j ==> MatchLength(ms[k], s) == 0)
    ensures FirstMatchIn(ms, s).None? ==> forall k :: 0 <= k < |ms| ==> MatchLength(ms[k], s) == 0
    decreases |ms|
  {
    if ms != [] && MatchLength(ms[0], s) == 0 {
      var rest := ms[1..];
      FirstMatchInSpec(rest, s);
      assert forall k :: 0 < k < |ms| ==> ms[k] == rest[k - 1];
      if FirstMatchIn(rest, s).Some? {
        var j :| 0 <= j < |rest|
          && FirstMatchIn(rest, s).value == (rest[j], MatchLength(rest[j], s))
          && forall k :: 0 <= k < j ==> MatchLength(rest[k], s) == 0;
        assert forall k :: 0 <= k < j + 1 ==> MatchLength(ms[k], s) == 0;
        assert FirstMatchIn(ms, s).value == (ms[j + 1], MatchLength(ms[j + 1], s));
      }
    }
  }

  /** The chosen matcher accepts the nonempty prefix that `FirstMatch` reports. */
  lemma FirstMatchSound(s: string)
    ensures FirstMatch(s).Some? ==> MatchLength(FirstMatch(s).value.0, s) == FirstMatch(s).value.1
  {
    FirstMatchInSpec(Matchers, s);
  }

  /** A STRING match takes just the opening quote. */
  lemma FirstMatchBounds(s: string)
    ensures FirstMatch(s).Some? && FirstMatch(s).value.0 == StringM ==> FirstMatch(s).value.1 == 1
  {
    FirstMatchSound(s);
  }

  /** First match wins: every matcher tried before the chosen one rejects `s`; with no winner, all reject it. */
  lemma FirstMatchFirst(s: string)
    ensures FirstMatch(s).Some? ==> exists j :: (0 <= j < |Matchers| && Matchers[j] == FirstMatch(s).value.0
      && forall k :: 0 <= k < j ==> MatchLength(Matchers[k], s) == 0)
    ensures FirstMatch(s).None? ==> forall k :: 0 <= k < |Matchers| ==> MatchLength(Matchers[k], s) == 0
  {
    FirstMatchInSpec(Matchers, s);
  }

  /** When no matcher wins, no matcher accepts anything at all. */
  lemma NoMatchAtAll(s: string, m: Matcher)
    requires FirstMatch(s).None?
    ensures MatchLength(m, s) == 0
  {
    EveryMatcherTried(m);
    FirstMatchFirst(s);
  }

  /** No matcher accepts the empty string, so every successful scan step consumes a character. */
  lemma NoEmptyMatch(m: Matcher)
    ensures MatchLength(m, "") == 0
  {
  }

  /** `=>` is an arrow, not `=` followed by `>`. */
  lemma ArrowWins(t: string)
    ensures FirstMatch("=>" + t) == Some((ArrowM, 2))
  {
    var s := "=>" + t;
    assert s[..2] == "=>";
    assert MatchLength(ArrowM, s) == 2;
    NotStartsWith(s, ".");
    assert MatchLength(Space, s) == 0 by { assert !IsSpace(s[0]); }
    FirstMatchIs(s, 2);
  }

  /** `//` opens a comment rather than being two division operators. */
  lemma CommentWins(t: string)
    ensures FirstMatch("//" + t) == Some((SingleComment, 2))
  {
    var s := "//" + t;
    assert s[..2] == "//";
    assert MatchLength(SingleComment, s) == 2;
    NotStartsWith(s, "=>");
    NotStartsWith(s, ".");
    assert MatchLength(Space, s) == 0 by { assert !IsSpace(s[0]); }
    FirstMatchIs(s, 3);
  }

  /** In any list of matchers, the first that accepts a prefix is the one `FirstMatchIn` picks. */
  lemma {:induction false} FirstMatchInAt(ms: seq<Matcher>, s: string, j: nat)
    requires j < |ms|
    requires forall k :: 0 <= k < j ==> MatchLength(ms[k], s) == 0
    requires MatchLength(ms[j], s) > 0
    ensures FirstMatchIn(ms, s) == Some((ms[j], MatchLength(ms[j], s)))
    decreases j
  {
    if j > 0 {
      assert MatchLength(ms[0], s) == 0;
      var rest := ms[1..];
      assert forall k :: 0 <= k < j - 1 ==> rest[k] == ms[k + 1];
      FirstMatchInAt(rest, s, j - 1);
    }
  }

  /** The first matcher, in try order, that accepts a prefix is the one `FirstMatch` picks. */
  lemma FirstMatchIs(s: string, j: nat)
    requires j < |Matchers|
    requires forall k :: 0 <= k < j ==> MatchLength(Matchers[k], s) == 0
    requires MatchLength(Matchers[j], s) > 0
    ensures FirstMatch(s) == Some((Matchers[j], MatchLength(Matchers[j], s)))
  {
    FirstMatchInAt(Matchers, s, j);
  }

  lemma NotStartsWith(s: string, p: string)
    requires s != [] && p != [] && s[0] != p[0]
    ensures !StartsWith(s, p)
  {
    if |p| <= |s| { assert s[..|p|][0] != p[0]; }
  }

  /** Every matcher tried before NUMBER rejects a minus sign. */
  lemma MinusRejectedBefore(s: string)
    requires s != [] && s[0] == '-'
    ensures forall k :: 0 <= k < 11 ==> MatchLength(Matchers[k], s) == 0
  {
    NotStartsWith(s, "."); NotStartsWith(s, "=>"); NotStartsWith(s, "//");
    NotStartsWith(s, "("); NotStartsWith(s, ")"); NotStartsWith(s, "{"); NotStartsWith(s, "}");
    NotStartsWith(s, ";"); NotStartsWith(s, ":"); NotStartsWith(s, "\"");
    assert MatchLength(Space, s) == 0 by { assert !IsSpace(s[0]); }
  }

  /** A minus sign glued to a digit is part of a NUMBER term, because NUMBER outranks OPERATOR. */
  lemma NegativeNumberWins(s: string)
    requires |s| >= 2 && s[0] == '-' && IsDigit(s[1])
    ensures FirstMatch(s).Some? && FirstMatch(s).value.0 == NumberM && FirstMatch(s).value.1 >= 2
  {
    MinusRejectedBefore(s);
    assert MatchLength(Matchers[11], s) >= 2 by {
      assert Span(s[1..], IsDigit) >= 1;
    }
    FirstMatchIs(s, 11);
  }

  /** Every matcher tried before LET rejects `letter`. */
  lemma LetterRejected()
    ensures forall k :: 0 <= k < 14 ==> MatchLength(Matchers[k], "letter") == 0
  {
    var s := "letter";
    NotStartsWith(s, "."); NotStartsWith(s, "=>"); NotStartsWith(s, "//");
    NotStartsWith(s, "("); NotStartsWith(s, ")"); NotStartsWith(s, "{"); NotStartsWith(s, "}");
    NotStartsWith(s, ";"); NotStartsWith(s, ":"); NotStartsWith(s, "\""); NotStartsWith(s, ",");
    NotStartsWith(s, "&&"); NotStartsWith(s, "||"); NotStartsWith(s, "=="); NotStartsWith(s, "!=");
    assert MatchLength(Space, s) == 0 by { assert !IsSpace(s[0]); }
  }

  /** Keywords match as prefixes: `letter` starts with the LET term `let` ... */
  lemma KeywordPrefix()
    ensures FirstMatch("letter") == Some((LetM, 3))
  {
    LetterRejected();
    assert MatchLength(Matchers[14], "letter") == 3 by {
      assert "letter"[..3] == "let";
    }
    FirstMatchIs("letter", 14);
  }

  /** Every matcher tried before STRING rejects a quote. */
  lemma QuoteRejectedBefore(s: string)
    requires s != [] && s[0] == '"'
    ensures forall k :: 0 <= k < 10 ==> MatchLength(Matchers[k], s) == 0
  {
    NotStartsWith(s, "."); NotStartsWith(s, "=>"); NotStartsWith(s, "//");
    NotStartsWith(s, "("); NotStartsWith(s, ")"); NotStartsWith(s, "{"); NotStartsWith(s, "}");
    NotStartsWith(s, ";"); NotStartsWith(s, ":");
    assert MatchLength(Space, s) == 0 by { assert !IsSpace(s[0]); }
  }

  /** A quote starts a STRING term made of the quote alone. */
  lemma QuoteWins(s: string)
    requires s != [] && s[0] == '"'
    ensures FirstMatch(s) == Some((StringM, 1))
  {
    QuoteRejectedBefore(s);
    assert MatchLength(Matchers[10], s) == 1 by {
      assert s[..1] == "\"";
    }
    FirstMatchIs(s, 10);
  }

  /** Every matcher tried before SYMBOL rejects `ter`. */
  lemma TerRejected()
    ensures forall k :: 0 <= k < 19 ==> MatchLength(Matchers[k], "ter") == 0
  {
    var t := "ter";
    NotStartsWith(t, "."); NotStartsWith(t, "=>"); NotStartsWith(t, "//");
    NotStartsWith(t, "("); NotStartsWith(t, ")"); NotStartsWith(t, "{"); NotStartsWith(t, "}");
    NotStartsWith(t, ";"); NotStartsWith(t, ":"); NotStartsWith(t, "\""); NotStartsWith(t, ",");
    NotStartsWith(t, "&&"); NotStartsWith(t, "||"); NotStartsWith(t, "=="); NotStartsWith(t, "!=");
    NotStartsWith(t, "let"); NotStartsWith(t, "struct"); NotStartsWith(t, "false");
    assert !StartsWith(t, "true") by { assert |t| < |"true"|; }
    assert MatchLength(Space, t) == 0 by { assert !IsSpace(t[0]); }
  }

  /** ... and what remains, `ter`, is a SYMBOL. */
  lemma KeywordRemainder()
    ensures FirstMatch("ter") == Some((SymbolM, 3))
  {
    TerRejected();
    assert MatchLength(Matchers[19], "ter") == 3 by {
      assert Span("ter"[1..], IsSymbolChar) == 2;
    }
    FirstMatchIs("ter", 19);
  }

  // ---- string mode ----

  /** `replace(/\\(?:[\\n"])/g, "  ")`: each escape `\\`, `\n`, `\"` becomes two spaces, scanning left to right. */
  function Blank(s: string): (r: string)
    ensures |r| == |s|
  {
    if |s| >= 2 && s[0] == '\\' && (s[1] == '\\' || s[1] == 'n' || s[1] == '"') then "  " + Blank(s[2..])
    else if s == [] then []
    else [s[0]] + Blank(s[1..])
  }

  /** Blanking only ever turns characters into spaces: a quote in the blanked text is a quote of the original. */
  lemma {:induction false} BlankOnlyErases(s: string, k: nat)
    requires k < |s|
    ensures Blank(s)[k] == s[k] || Blank(s)[k] == ' '
  {
    if |s| >= 2 && s[0] == '\\' && (s[1] == '\\' || s[1] == 'n' || s[1] == '"') {
      if k >= 2 { BlankOnlyErases(s[2..], k - 2); }
    } else if k > 0 {
      BlankOnlyErases(s[1..], k - 1);
    }
  }

  /** An escaped quote never closes a string: the quote after a backslash is blanked. */
  lemma {:induction false} EscapedQuoteBlanked(s: string)
    requires |s| >= 2 && s[0] == '\\' && s[1] == '"'
    ensures Blank(s)[0] == ' ' && Blank(s)[1] == ' '
  {
  }

  /** `/"/.exec`: the index of the first quote. */
  function FindQuote(s: string): (r: Option<nat>)
    ensures r.Some? ==> r.value < |s|
  {
    if s == [] then None
    else if s[0] == '"' then Some(0)
    else match FindQuote(s[1..])
      case None => None
      case Some(k) => Some(k + 1)
  }

  /** `FindQuote` finds the first quote, and None means there is none. */
  lemma {:induction false} FindQuoteFirst(s: string)
    ensures FindQuote(s).Some? ==> (s[FindQuote(s).value] == '"'
      && forall k :: 0 <= k < FindQuote(s).value ==> s[k] != '"')
    ensures FindQuote(s).None? ==> forall k :: 0 <= k < |s| ==> s[k] != '"'
  {
    if s != [] && s[0] != '"' {
      FindQuoteFirst(s[1..]);
    }
  }

  // ---- terms ----

  datatype Term = Term(word: string, line: nat, column: nat, matcher: Matcher)

  /** A string term that was closed on its line; its `char` is one past the opening quote. */
  predicate IsClosedString(t: Term) { t.matcher == StringM && |t.word| > 1 }

  /** A quote left open at the end of its line. */
  predicate IsBareQuote(t: Term) { t.matcher == StringM && |t.word| == 1 }

  /** Where the word of a term begins in its line. */
  function Start(t: Term): int { if IsClosedString(t) then t.column - 1 else t.column }

  function End(t: Term): int { Start(t) + |t.word| }

  /** `t` is what the scanner produces at its position of `line`: the word of the first matcher that
      accepts the rest of the line, or, for a string, everything up to the first unescaped quote. */
  predicate Scanned(line: string, t: Term)
  {
    0 <= Start(t) && End(t) <= |line| && t.word == line[Start(t)..End(t)]
    && if IsClosedString(t) then
      FirstMatch(line[Start(t)..]) == Some((StringM, 1))
      && FindQuote(Blank(line[t.column..])) == Some(|t.word| - 2)
    else
      FirstMatch(line[t.column..]) == Some((t.matcher, |t.word|))
  }

  function Prepend(t: Term, r: Result<seq<Term>>): (r': Result<seq<Term>>)
  {
    if r.Ok? then Ok([t] + r.value) else r
  }

  function Cat(ws: seq<Term>, r: Result<seq<Term>>): (r': Result<seq<Term>>)
  {
    if r.Ok? then Ok(ws + r.value) else r
  }

  lemma CatNil(r: Result<seq<Term>>)
    ensures Cat([], r) == r
  {
    if r.Ok? { assert [] + r.value == r.value; }
  }

  lemma CatPrepend(ws: seq<Term>, t: Term, r: Result<seq<Term>>)
    ensures Cat(ws, Prepend(t, r)) == Cat(ws + [t], r)
  {
    if r.Ok? { assert ws + ([t] + r.value) == (ws + [t]) + r.value; }
  }

  /** The terms of `line` from column `c` on, read as a grammar: a comment ends the line, a quote
      opens a string, and anything else is the word of the first matcher that accepts. */
  function ScanFrom(line: string, lineNo: nat, c: nat): (r: Result<seq<Term>>)
    decreases |line| - c, 1
  {
    if c >= |line| then Ok([])
    else match FirstMatch(line[c..])
      case None => Err(CompileError("Unrecognized term", At(lineNo, c)))
      case Some((m, len)) =>
        if m == SingleComment then Ok([Term(line[c..c + len], lineNo, c, m)])
        else if m == StringM then ScanString(line, lineNo, c)
        else Prepend(Term(line[c..c + len], lineNo, c, m), ScanFrom(line, lineNo, c + len))
  }

  /** The terms of `line` from the quote at column `q` on: the string runs to the next unescaped
      quote, and a quote that is the last character of the line is left as it is. */
  function ScanString(line: string, lineNo: nat, q: nat): (r: Result<seq<Term>>)
    requires q < |line|
    decreases |line| - q, 0
  {
    if q + 1 == |line| then Ok([Term(line[q..q + 1], lineNo, q, StringM)])
    else match FindQuote(Blank(line[q + 1..]))
      case None => Err(CompileError("No closing string term", At(lineNo, q + 1)))
      case Some(idx) =>
        Prepend(Term(line[q..q + idx + 2], lineNo, q + 1, StringM), ScanFrom(line, lineNo, q + idx + 2))
  }

  /** `ws` tiles `line` from column `c`: each term is what the scanner takes at the column where the
      previous one ended, on to the end of the line or to a comment or a quote left open there. */
  predicate Tiles(line: string, lineNo: nat, ws: seq<Term>, c: nat)
    decreases |ws|
  {
    if ws == [] then c == |line|
    else
      var t := ws[0];
      t.line == lineNo && Start(t) == c && Scanned(line, t)
      && if t.matcher == SingleComment || IsBareQuote(t) then
        |ws| == 1 && (IsBareQuote(t) ==> End(t) == |line|)
      else Tiles(line, lineNo, ws[1..], End(t))
  }

  /** No matcher accepts the line at the reported column. */
  predicate Unrecognized(line: string, lineNo: nat, e: Error)
  {
    e.CompileError? && e.msg == "Unrecognized term" && e.pos.At? && e.pos.line == lineNo
    && e.pos.column < |line| && FirstMatch(line[e.pos.column..]) == None
  }

  /** A quote just before the reported column is never closed on its line. */
  predicate Unclosed(line: string, lineNo: nat, e: Error)
  {
    e.CompileError? && e.msg == "No closing string term" && e.pos.At? && e.pos.line == lineNo
    && 0 < e.pos.column < |line| && line[e.pos.column - 1] == '"'
    && FindQuote(Blank(line[e.pos.column..])) == None
  }

  /** The two errors the scanner can raise on a line. */
  predicate LineError(line: string, lineNo: nat, e: Error)
  {
    Unrecognized(line, lineNo, e) || Unclosed(line, lineNo, e)
  }

  /** What a scan from column `c` yields is a tiling of the line from `c`, and when it fails it fails with a line error. */
  predicate Sound(line: string, lineNo: nat, r: Result<seq<Term>>, c: nat)
  {
    (r.Ok? ==> Tiles(line, lineNo, r.value, c)) && (r.Err? ==> LineError(line, lineNo, r.error))
  }

  lemma {:induction false} ScanFromTiles(line: string, lineNo: nat, c: nat)
    requires c <= |line|
    ensures Sound(line, lineNo, ScanFrom(line, lineNo, c), c)
    decreases |line| - c, 3
  {
    if c < |line| {
      var fm := FirstMatch(line[c..]);
      if fm.None? {
        assert Unrecognized(line, lineNo, ScanFrom(line, lineNo, c).error);
      } else if fm.value.0 == SingleComment {
        assert Scanned(line, Term(line[c..c + fm.value.1], lineNo, c, SingleComment));
      } else if fm.value.0 == StringM {
        FirstMatchBounds(line[c..]);
        ScanStringTiles(line, lineNo, c);
        ScanFromQuote(line, lineNo, c);
      } else {
        WordTiles(line, lineNo, c, fm.value.0, fm.value.1);
      }
    }
  }

  /** An ordinary word followed by a sound scan of the rest is a sound scan. */
  lemma {:induction false} WordTiles(line: string, lineNo: nat, c: nat, m: Matcher, len: nat)
    requires c < |line| && FirstMatch(line[c..]) == Some((m, len)) && m != SingleComment && m != StringM
    ensures Sound(line, lineNo, ScanFrom(line, lineNo, c), c)
    decreases |line| - c, 0
  {
    var e: nat := c + len;
    WordScanned(line, lineNo, c, m, len);
    ScanFromTiles(line, lineNo, e);
    SoundPrepend(line, lineNo, Term(line[c..e], lineNo, c, m), ScanFrom(line, lineNo, e), c);
    ScanFromWord(line, lineNo, c, m, len);
  }

  lemma WordScanned(line: string, lineNo: nat, c: nat, m: Matcher, len: nat)
    requires c < |line| && FirstMatch(line[c..]) == Some((m, len)) && m != SingleComment && m != StringM
    ensures c + len <= |line|
    ensures var t := Term(line[c..c + len], lineNo, c, m);
      Scanned(line, t) && !IsBareQuote(t) && Start(t) == c && End(t) == c + len
  {
  }

  lemma {:induction false} ScanStringTiles(line: string, lineNo: nat, q: nat)
    requires q < |line| && FirstMatch(line[q..]) == Some((StringM, 1))
    ensures Sound(line, lineNo, ScanString(line, lineNo, q), q)
    decreases |line| - q, 2
  {
    if q + 1 == |line| {
      assert Scanned(line, Term(line[q..q + 1], lineNo, q, StringM));
    } else if FindQuote(Blank(line[q + 1..])).None? {
      QuoteAt(line, q);
      assert Unclosed(line, lineNo, ScanString(line, lineNo, q).error);
    } else {
      StringTiles(line, lineNo, q, FindQuote(Blank(line[q + 1..])).value);
    }
  }

  /** A closed string followed by a sound scan of the rest is a sound scan. */
  lemma {:induction false} StringTiles(line: string, lineNo: nat, q: nat, idx: nat)
    requires q + 1 < |line| && FirstMatch(line[q..]) == Some((StringM, 1))
    requires FindQuote(Blank(line[q + 1..])) == Some(idx)
    ensures Sound(line, lineNo, ScanString(line, lineNo, q), q)
    decreases |line| - q, 0
  {
    var t := Term(line[q..q + idx + 2], lineNo, q + 1, StringM);
    ClosedStringScanned(line, lineNo, q, idx);
    ScanFromTiles(line, lineNo, End(t));
    SoundPrepend(line, lineNo, t, ScanFrom(line, lineNo, End(t)), q);
    ScanStringClosed(line, lineNo, q, idx);
  }

  /** Putting a term that neither ends the line nor is left open in front of a sound scan from its end. */
  lemma SoundPrepend(line: string, lineNo: nat, t: Term, r: Result<seq<Term>>, c: nat)
    requires t.line == lineNo && Start(t) == c && Scanned(line, t)
    requires t.matcher != SingleComment && !IsBareQuote(t)
    requires Sound(line, lineNo, r, End(t))
    ensures Sound(line, lineNo, Prepend(t, r), c)
  {
    if r.Ok? {
      TilesCons(line, lineNo, t, r.value, c);
    }
  }

  lemma ScanFromWord(line: string, lineNo: nat, c: nat, m: Matcher, len: nat)
    requires c < |line| && FirstMatch(line[c..]) == Some((m, len)) && m != SingleComment && m != StringM
    ensures ScanFrom(line, lineNo, c) == Prepend(Term(line[c..c + len], lineNo, c, m), ScanFrom(line, lineNo, c + len))
  {
  }

  lemma ScanFromQuote(line: string, lineNo: nat, c: nat)
    requires c < |line| && FirstMatch(line[c..]).Some? && FirstMatch(line[c..]).value.0 == StringM
    ensures ScanFrom(line, lineNo, c) == ScanString(line, lineNo, c)
  {
  }

  lemma ScanStringClosed(line: string, lineNo: nat, q: nat, idx: nat)
    requires q + 1 < |line| && FindQuote(Blank(line[q + 1..])) == Some(idx)
    ensures var t := Term(line[q..q + idx + 2], lineNo, q + 1, StringM);
      ScanString(line, lineNo, q) == Prepend(t, ScanFrom(line, lineNo, End(t)))
  {
    assert End(Term(line[q..q + idx + 2], lineNo, q + 1, StringM)) == q + idx + 2;
  }

  /** A term that neither ends the line nor is left open, followed by a tiling from where it ends. */
  lemma TilesCons(line: string, lineNo: nat, t: Term, rest: seq<Term>, c: nat)
    requires t.line == lineNo && Start(t) == c && Scanned(line, t)
    requires t.matcher != SingleComment && !IsBareQuote(t)
    requires Tiles(line, lineNo, rest, End(t))
    ensures Tiles(line, lineNo, [t] + rest, c)
  {
    assert ([t] + rest)[1..] == rest;
  }

  /** The STRING matcher accepts only at a quote. */
  lemma QuoteAt(line: string, q: nat)
    requires q < |line| && FirstMatch(line[q..]) == Some((StringM, 1))
    ensures line[q] == '"'
  {
    FirstMatchSound(line[q..]);
    assert line[q..][..1] == "\"" && line[q..][0] == line[q];
  }

  /** The string that starts at the quote in column `q` and ends at the next unescaped quote is a scanned term. */
  lemma ClosedStringScanned(line: string, lineNo: nat, q: nat, idx: nat)
    requires q + 1 < |line| && FirstMatch(line[q..]) == Some((StringM, 1))
    requires FindQuote(Blank(line[q + 1..])) == Some(idx)
    ensures q + idx + 2 <= |line|
    ensures var t := Term(line[q..q + idx + 2], lineNo, q + 1, StringM);
      Scanned(line, t) && IsClosedString(t) && Start(t) == q && End(t) == q + idx + 2
  {
    assert idx < |line| - (q + 1);
    var t := Term(line[q..q + idx + 2], lineNo, q + 1, StringM);
    assert Start(t) == q;
    assert line[Start(t)..] == line[q..];
    assert line[t.column..] == line[q + 1..];
    ScannedClosed(line, t);
  }

  lemma ScannedClosed(line: string, t: Term)
    requires IsClosedString(t) && 0 <= Start(t) && End(t) <= |line| && t.word == line[Start(t)..End(t)]
    requires FirstMatch(line[Start(t)..]) == Some((StringM, 1))
    requires FindQuote(Blank(line[t.column..])) == Some(|t.word| - 2)
    ensures Scanned(line, t)
  {
  }

  /** Conversely, the scan finds every tiling: a line has exactly one, and it is what the scanner yields. */
  lemma {:induction false} TilesScan(line: string, lineNo: nat, ws: seq<Term>, c: nat)
    requires Tiles(line, lineNo, ws, c)
    ensures ScanFrom(line, lineNo, c) == Ok(ws)
    decreases |ws|
  {
    if ws != [] {
      var t := ws[0];
      if t.matcher == SingleComment || IsBareQuote(t) {
        TilesScanLast(line, lineNo, t, c);
        assert ws == [t];
      } else {
        TilesScan(line, lineNo, ws[1..], End(t));
        TilesScanStep(line, lineNo, t, c, ws[1..]);
        assert ws == [t] + ws[1..];
      }
    }
  }

  /** A comment, or a quote left open, tiles the line alone. */
  lemma TilesScanLast(line: string, lineNo: nat, t: Term, c: nat)
    requires t.line == lineNo && Start(t) == c && Scanned(line, t)
    requires t.matcher == SingleComment || IsBareQuote(t)
    requires IsBareQuote(t) ==> End(t) == |line|
    ensures ScanFrom(line, lineNo, c) == Ok([t])
  {
    if IsBareQuote(t) {
      BareQuoteLast(line, lineNo, t, c);
    } else {
      CommentLast(line, lineNo, t, c);
    }
  }

  lemma BareQuoteLast(line: string, lineNo: nat, t: Term, c: nat)
    requires t.line == lineNo && Start(t) == c && Scanned(line, t) && IsBareQuote(t) && End(t) == |line|
    ensures ScanFrom(line, lineNo, c) == Ok([t])
  {
    assert c + 1 == |line| && t == Term(line[c..c + 1], lineNo, c, StringM);
    ScanFromQuote(line, lineNo, c);
  }

  lemma CommentLast(line: string, lineNo: nat, t: Term, c: nat)
    requires t.line == lineNo && Start(t) == c && Scanned(line, t) && t.matcher == SingleComment
    ensures ScanFrom(line, lineNo, c) == Ok([t])
  {
    var fm := FirstMatch(line[c..]);
    assert fm == Some((SingleComment, |t.word|));
    assert t == Term(line[c..c + |t.word|], lineNo, c, SingleComment);
  }

  /** Any other scanned term is followed by the scan of the rest of the line. */
  lemma TilesScanStep(line: string, lineNo: nat, t: Term, c: nat, rest: seq<Term>)
    requires t.line == lineNo && Start(t) == c && Scanned(line, t)
    requires t.matcher != SingleComment && !IsBareQuote(t)
    requires End(t) <= |line| && ScanFrom(line, lineNo, End(t)) == Ok(rest)
    ensures ScanFrom(line, lineNo, c) == Ok([t] + rest)
  {
    if IsClosedString(t) {
      TilesScanString(line, lineNo, t, c, rest);
    } else {
      TilesScanWord(line, lineNo, t, c, rest);
    }
  }

  lemma TilesScanString(line: string, lineNo: nat, t: Term, c: nat, rest: seq<Term>)
    requires t.line == lineNo && Start(t) == c && Scanned(line, t) && IsClosedString(t)
    requires End(t) <= |line| && ScanFrom(line, lineNo, End(t)) == Ok(rest)
    ensures ScanFrom(line, lineNo, c) == Ok([t] + rest)
  {
    var idx: nat := |t.word| - 2;
    var e: nat := c + idx + 2;
    assert t == Term(line[c..e], lineNo, c + 1, StringM) && End(t) == e;
    ScanFromQuote(line, lineNo, c);
    ScanStringClosed(line, lineNo, c, idx);
  }

  lemma TilesScanWord(line: string, lineNo: nat, t: Term, c: nat, rest: seq<Term>)
    requires t.line == lineNo && Start(t) == c && Scanned(line, t)
    requires t.matcher != SingleComment && t.matcher != StringM
    requires End(t) <= |line| && ScanFrom(line, lineNo, End(t)) == Ok(rest)
    ensures ScanFrom(line, lineNo, c) == Ok([t] + rest)
  {
    var len := |t.word|;
    assert t == Term(line[c..c + len], lineNo, c, t.matcher) && End(t) == c + len;
    ScanFromWord(line, lineNo, c, t.matcher, len);
  }

  /** Loop state of the scanner in normal mode: `words` followed by the terms from `c` on make the whole line. */
  predicate Normal(line: string, lineNo: nat, full: Result<seq<Term>>, words: seq<Term>, c: nat)
  {
    c <= |line| && full == Cat(words, ScanFrom(line, lineNo, c))
  }

  /** Loop state in string mode: the last word is the quote just before `c`, and the string it opens
      and the terms after it complete the line. */
  predicate InString(line: string, lineNo: nat, full: Result<seq<Term>>, words: seq<Term>, c: nat)
  {
    0 < c <= |line| && words != []
    && words[|words| - 1] == Term(line[c - 1..c], lineNo, c - 1, StringM)
    && full == Cat(words[..|words| - 1], ScanString(line, lineNo, c - 1))
  }

  /** The loop state of the scanner in either mode. */
  predicate ScanState(line: string, lineNo: nat, full: Result<seq<Term>>, words: seq<Term>, c: nat, isString: bool)
  {
    if isString then InString(line, lineNo, full, words, c) else Normal(line, lineNo, full, words, c)
  }

  lemma NormalStart(line: string, lineNo: nat)
    ensures ScanState(line, lineNo, ScanFrom(line, lineNo, 0), [], 0, false)
  {
    CatNil(ScanFrom(line, lineNo, 0));
  }

  /** A word other than a comment moves the scan on, into string mode exactly when it is a quote. */
  lemma NormalStep(line: string, lineNo: nat, full: Result<seq<Term>>, words: seq<Term>, c: nat, m: Matcher, len: nat)
    requires Normal(line, lineNo, full, words, c) && c < |line|
    requires FirstMatch(line[c..]) == Some((m, len)) && m != SingleComment
    ensures ScanState(line, lineNo, full, words + [Term(line[c..c + len], lineNo, c, m)], c + len, m == StringM)
  {
    if m == StringM {
      NormalQuote(line, lineNo, full, words, c, len);
    } else {
      NormalWord(line, lineNo, full, words, c, m, len);
    }
  }

  /** An ordinary word moves the scan on in normal mode. */
  lemma NormalWord(line: string, lineNo: nat, full: Result<seq<Term>>, words: seq<Term>, c: nat, m: Matcher, len: nat)
    requires Normal(line, lineNo, full, words, c) && c < |line|
    requires FirstMatch(line[c..]) == Some((m, len)) && m != SingleComment && m != StringM
    ensures Normal(line, lineNo, full, words + [Term(line[c..c + len], lineNo, c, m)], c + len)
  {
    CatPrepend(words, Term(line[c..c + len], lineNo, c, m), ScanFrom(line, lineNo, c + len));
  }

  /** A comment ends the scan of the line. */
  lemma NormalComment(line: string, lineNo: nat, full: Result<seq<Term>>, words: seq<Term>, c: nat, len: nat)
    requires Normal(line, lineNo, full, words, c) && c < |line|
    requires FirstMatch(line[c..]) == Some((SingleComment, len))
    ensures full == Ok(words + [Term(line[c..c + len], lineNo, c, SingleComment)])
  {
  }

  /** A quote switches to string mode. */
  lemma NormalQuote(line: string, lineNo: nat, full: Result<seq<Term>>, words: seq<Term>, c: nat, len: nat)
    requires Normal(line, lineNo, full, words, c) && c < |line|
    requires FirstMatch(line[c..]) == Some((StringM, len))
    ensures len == 1
    ensures InString(line, lineNo, full, words + [Term(line[c..c + len], lineNo, c, StringM)], c + len)
  {
    FirstMatchBounds(line[c..]);
    var ws := words + [Term(line[c..c + len], lineNo, c, StringM)];
    assert ws[..|ws| - 1] == words;
  }

  /** The closing quote ends string mode: the open quote is replaced by the whole string. */
  lemma StringClosed(line: string, lineNo: nat, full: Result<seq<Term>>, words: seq<Term>, c: nat, idx: nat)
    requires InString(line, lineNo, full, words, c) && c < |line|
    requires FindQuote(Blank(line[c..])) == Some(idx)
    ensures words[|words| - 1].column == c - 1 && c + idx + 1 <= |line|
    ensures Normal(line, lineNo, full, words[..|words| - 1] + [Term(line[c - 1..c + idx + 1], lineNo, c, StringM)], c + idx + 1)
  {
    var q: nat := c - 1;
    assert line[q + 1..] == line[c..];
    var t := Term(line[q..q + idx + 2], lineNo, c, StringM);
    CatPrepend(words[..|words| - 1], t, ScanFrom(line, lineNo, q + idx + 2));
  }

  /** The closing quote, as the loop finds it: back to normal mode after the whole string. */
  lemma StringStep(line: string, lineNo: nat, full: Result<seq<Term>>, words: seq<Term>, c: nat, idx: nat)
    requires InString(line, lineNo, full, words, c) && c < |line|
    requires FindQuote(Blank(line[c..])) == Some(idx)
    ensures words[|words| - 1].column + idx + 2 <= |line|
    ensures var col := words[|words| - 1].column;
      ScanState(line, lineNo, full, words[..|words| - 1] + [Term(line[col..col + idx + 2], lineNo, c, StringM)], c + idx + 1, false)
  {
    StringClosed(line, lineNo, full, words, c, idx);
  }

  /** No closing quote: the scan of the line fails just after the opening quote. */
  lemma StringUnclosed(line: string, lineNo: nat, full: Result<seq<Term>>, words: seq<Term>, c: nat)
    requires InString(line, lineNo, full, words, c) && c < |line|
    requires FindQuote(Blank(line[c..])).None?
    ensures full == Err(CompileError("No closing string term", At(lineNo, c)))
  {
    var q: nat := c - 1;
    assert line[q + 1..] == line[c..];
  }

  /** A word nothing matches fails the scan of the line. */
  lemma NoMatchFails(line: string, lineNo: nat, full: Result<seq<Term>>, words: seq<Term>, c: nat)
    requires Normal(line, lineNo, full, words, c) && c < |line|
    requires FirstMatch(line[c..]).None?
    ensures full == Err(CompileError("Unrecognized term", At(lineNo, c)))
  {
  }

  /** At the end of the line the words are the whole scan, a quote left open included. */
  lemma LineEnd(line: string, lineNo: nat, full: Result<seq<Term>>, words: seq<Term>, c: nat, isString: bool)
    requires c >= |line|
    requires ScanState(line, lineNo, full, words, c, isString)
    ensures full == Ok(words)
  {
    if isString {
      assert words[..|words| - 1] + [words[|words| - 1]] == words;
    } else {
      assert words + [] == words;
    }
  }

  /** The loop of the `reduce` callback of `get_terms` over one line: a flag for string mode, and the
      open quote replaced by the whole string once its closing quote is found. */
  method ScanLine(line: string, lineNo: nat) returns (r: Result<seq<Term>>)
    ensures r == ScanFrom(line, lineNo, 0)
  {
    var words: seq<Term> := [];
    var charCount: nat := 0;
    var isString := false;
    ghost var full := ScanFrom(line, lineNo, 0);
    NormalStart(line, lineNo);
    while charCount < |line|
      invariant ScanState(line, lineNo, full, words, charCount, isString)
      decreases |line| - charCount
    {
      if isString {
        var closing := FindQuote(Blank(line[charCount..]));
        if closing.None? {
          StringUnclosed(line, lineNo, full, words, charCount);
          return Err(CompileError("No closing string term", At(lineNo, charCount)));
        }
        var idx := closing.value;
        StringStep(line, lineNo, full, words, charCount, idx);
        var open := words[|words| - 1];
        words := words[..|words| - 1] + [Term(line[open.column..open.column + idx + 2], lineNo, charCount, StringM)];
        charCount := charCount + idx + 1;
        isString := false;
      } else {
        var m := FirstMatch(line[charCount..]);
        if m.None? {
          NoMatchFails(line, lineNo, full, words, charCount);
          return Err(CompileError("Unrecognized term", At(lineNo, charCount)));
        }
        var (matcher, len) := m.value;
        if matcher == SingleComment {
          // the comment is the last word of its line
          NormalComment(line, lineNo, full, words, charCount, len);
          words := words + [Term(line[charCount..charCount + len], lineNo, charCount, matcher)];
          return Ok(words);
        }
        NormalStep(line, lineNo, full, words, charCount, matcher, len);
        words := words + [Term(line[charCount..charCount + len], lineNo, charCount, matcher)];
        charCount := charCount + len;
        isString := matcher == StringM;
      }
    }
    LineEnd(line, lineNo, full, words, charCount, isString);
    return Ok(words);
  }

  /** A scan succeeds with `ws` exactly when `ws` tiles the line. */
  lemma ScanIffTiles(line: string, lineNo: nat, ws: seq<Term>)
    ensures ScanFrom(line, lineNo, 0) == Ok(ws) <==> Tiles(line, lineNo, ws, 0)
  {
    ScanFromTiles(line, lineNo, 0);
    if Tiles(line, lineNo, ws, 0) {
      TilesScan(line, lineNo, ws, 0);
    }
  }

  /** A quote that is the last character of a line is kept as a one-character STRING term, with no error:
      the line scans without a closing quote. */
  lemma TrailingQuoteAccepted(line: string, lineNo: nat)
    requires line != [] && line[|line| - 1] == '"'
    ensures ScanFrom(line, lineNo, |line| - 1) == Ok([Term("\"", lineNo, |line| - 1, StringM)])
  {
    var c := |line| - 1;
    QuoteWins(line[c..]);
    assert line[c..c + 1] == "\"";
  }

  // ---- Terms within a line ----

  /** `a` comes before `b` in the source, and a comment is never followed by a term of its own line. */
  predicate InOrder(a: Term, b: Term)
  {
    a.line < b.line || (a.line == b.line && a.matcher != SingleComment && End(a) <= Start(b))
  }

  predicate Ordered(ws: seq<Term>)
  {
    forall j, k :: 0 <= j < k < |ws| ==> InOrder(ws[j], ws[k])
  }

  /** The terms of a tiling are scanned from their line, lie at or after `c`, and come in order. */
  lemma {:induction false} TilesOrdered(line: string, lineNo: nat, ws: seq<Term>, c: nat)
    requires Tiles(line, lineNo, ws, c)
    ensures forall k :: 0 <= k < |ws| ==> ws[k].line == lineNo && c <= Start(ws[k]) && Scanned(line, ws[k])
    ensures Ordered(ws)
    decreases |ws|
  {
    if ws != [] {
      var t := ws[0];
      if t.matcher != SingleComment && !IsBareQuote(t) {
        var rest := ws[1..];
        TilesOrdered(line, lineNo, rest, End(t));
        assert forall k :: 1 <= k < |ws| ==> ws[k] == rest[k - 1];
        forall j, k | 0 <= j < k < |ws| ensures InOrder(ws[j], ws[k]) {
          if j > 0 {
            assert InOrder(rest[j - 1], rest[k - 1]);
          }
        }
      }
    }
  }

  // ---- Dropping whitespace ----

  /** `/^\s+$/`: a nonempty word made only of whitespace. */
  predicate AllSpace(w: string)
  {
    w != [] && forall k :: 0 <= k < |w| ==> IsSpace(w[k])
  }

  /** The `filter` of `get_terms`: keep the terms whose word is not whitespace only. */
  function DropSpaces(ws: seq<Term>): (r: seq<Term>)
    ensures |r| <= |ws|
  {
    if ws == [] then []
    else if AllSpace(ws[0].word) then DropSpaces(ws[1..])
    else [ws[0]] + DropSpaces(ws[1..])
  }

  /** The terms kept are those of `ws` that are not whitespace, and they keep their order. */
  lemma {:induction false} DropSpacesKeeps(ws: seq<Term>)
    ensures forall t :: t in DropSpaces(ws) <==> t in ws && !AllSpace(t.word)
    ensures Ordered(ws) ==> Ordered(DropSpaces(ws))
  {
    if ws != [] {
      var rest := DropSpaces(ws[1..]);
      DropSpacesKeeps(ws[1..]);
      assert forall t :: t in ws <==> t == ws[0] || t in ws[1..];
      if Ordered(ws) {
        assert Ordered(ws[1..]) by {
          forall j, k | 0 <= j < k < |ws[1..]| ensures InOrder(ws[1..][j], ws[1..][k]) {
            assert ws[1..][j] == ws[j + 1] && ws[1..][k] == ws[k + 1];
          }
        }
        if !AllSpace(ws[0].word) {
          forall k | 0 <= k < |rest| ensures InOrder(ws[0], rest[k]) {
            assert rest[k] in rest;
            var i :| 0 <= i < |ws[1..]| && ws[1..][i] == rest[k];
            assert ws[1..][i] == ws[i + 1];
          }
          OrderedCons(ws[0], rest);
        }
      }
    }
  }

  lemma OrderedCons(t: Term, ws: seq<Term>)
    requires Ordered(ws) && forall k :: 0 <= k < |ws| ==> InOrder(t, ws[k])
    ensures Ordered([t] + ws)
  {
    forall j, k | 0 <= j < k < |[t] + ws| ensures InOrder(([t] + ws)[j], ([t] + ws)[k]) {
      if j > 0 {
        assert ([t] + ws)[j] == ws[j - 1] && ([t] + ws)[k] == ws[k - 1];
      }
    }
  }

  /** Dropping whitespace from terms that contain none changes nothing, and it goes word by word. */
  lemma {:induction false} DropSpacesAppend(a: seq<Term>, b: seq<Term>)
    ensures DropSpaces(a + b) == DropSpaces(a) + DropSpaces(b)
  {
    if a != [] {
      assert (a + b)[1..] == a[1..] + b;
      DropSpacesAppend(a[1..], b);
    } else {
      assert a + b == b;
    }
  }

  lemma {:induction false} DropSpacesIdempotent(ws: seq<Term>)
    ensures DropSpaces(DropSpaces(ws)) == DropSpaces(ws)
  {
    if ws != [] {
      DropSpacesIdempotent(ws[1..]);
      if !AllSpace(ws[0].word) {
        assert ([ws[0]] + DropSpaces(ws[1..]))[1..] == DropSpaces(ws[1..]);
      }
    }
  }

  /** The SPACE matcher wins exactly at a whitespace character, and then takes only whitespace. */
  lemma SpaceWins(s: string)
    requires FirstMatch(s).Some?
    ensures FirstMatch(s).value.0 == Space <==> IsSpace(s[0])
    ensures FirstMatch(s).value.0 == Space ==> AllSpace(s[..FirstMatch(s).value.1])
  {
    FirstMatchSound(s);
    SpanMaximal(s, IsSpace);
    if IsSpace(s[0]) {
      assert MatchLength(Matchers[0], s) > 0;
    }
  }

  /** Of the scanned terms, exactly the SPACE ones are whitespace: the filter drops just those. */
  lemma ScannedSpace(line: string, t: Term)
    requires Scanned(line, t)
    ensures AllSpace(t.word) <==> t.matcher == Space
  {
    if IsClosedString(t) {
      QuoteAt(line, Start(t));
      assert t.word[0] == line[Start(t)];
      assert !AllSpace(t.word);
    } else {
      var s := line[t.column..];
      var n := |t.word|;
      assert t.word == s[..n] && FirstMatch(s) == Some((t.matcher, n));
      SpaceWins(s);
      assert t.word[0] == s[0];
      if t.matcher == Space {
        assert AllSpace(s[..n]);
      } else {
        assert !IsSpace(t.word[0]);
      }
    }
  }

  // ---- Lines ----

  /** `split(/\n/)`: the pieces of `s` between newlines; there is always at least one. */
  function Segments(s: string): (r: seq<string>)
    ensures |r| > 0
    decreases |s|
  {
    if s == [] then [""]
    else
      var rest := Segments(s[1..]);
      if s[0] == '\n' then [""] + rest else [[s[0]] + rest[0]] + rest[1..]
  }

  /** The inverse of `Segments`: the pieces glued back with newlines. */
  function Join(ls: seq<string>): string
  {
    if ls == [] then ""
    else if |ls| == 1 then ls[0]
    else ls[0] + "\n" + Join(ls[1..])
  }

  function NewlineCount(s: string): nat
  {
    if s == [] then 0 else (if s[0] == '\n' then 1 else 0) + NewlineCount(s[1..])
  }

  /** Splitting and joining are inverse: no piece holds a newline, there is one more piece than there are
      newlines, and joining the pieces gives `s` back. */
  lemma {:induction false} SegmentsJoin(s: string)
    ensures Join(Segments(s)) == s
    ensures |Segments(s)| == NewlineCount(s) + 1
    ensures forall k, i :: 0 <= k < |Segments(s)| && 0 <= i < |Segments(s)[k]| ==> Segments(s)[k][i] != '\n'
    decreases |s|
  {
    if s != [] {
      var rest := Segments(s[1..]);
      SegmentsJoin(s[1..]);
      if s[0] == '\n' {
        assert ([""] + rest)[1..] == rest;
        assert s == [s[0]] + s[1..];
      } else {
        var r := [[s[0]] + rest[0]] + rest[1..];
        assert r[1..] == rest[1..];
        assert forall k :: 1 <= k < |r| ==> r[k] == rest[k];
        if |rest| == 1 {
          assert s == [s[0]] + rest[0];
        } else {
          assert Join(rest) == rest[0] + "\n" + Join(rest[1..]);
          assert s == [s[0]] + s[1..];
        }
      }
    }
  }

  /** A line's trailing carriage return, when it has one. */
  function StripCR(l: string): string
  {
    if l != [] && l[|l| - 1] == '\r' then l[..|l| - 1] else l
  }

  /** `raw.split(/\r?\n/g)`: the newline-separated pieces, each but the last losing the `\r` before its newline. */
  function SplitLines(raw: string): (r: seq<string>)
  {
    var segs := Segments(raw);
    seq(|segs|, k requires 0 <= k < |segs| => if k + 1 < |segs| then StripCR(segs[k]) else segs[k])
  }

  /** One line per newline plus one; without carriage returns the lines are exactly the pieces. */
  lemma SplitLinesCount(raw: string)
    ensures |SplitLines(raw)| == NewlineCount(raw) + 1
    ensures (forall i :: 0 <= i < |raw| ==> raw[i] != '\r') ==> Join(SplitLines(raw)) == raw
  {
    SegmentsJoin(raw);
    if forall i :: 0 <= i < |raw| ==> raw[i] != '\r' {
      NoCR(raw);
      assert SplitLines(raw) == Segments(raw);
    }
  }

  /** A piece ends in `\r` only if the text holds one. */
  lemma {:induction false} NoCR(s: string)
    requires forall i :: 0 <= i < |s| ==> s[i] != '\r'
    ensures forall k :: 0 <= k < |Segments(s)| ==> StripCR(Segments(s)[k]) == Segments(s)[k]
    decreases |s|
  {
    if s != [] {
      NoCR(s[1..]);
      var rest := Segments(s[1..]);
      if s[0] != '\n' {
        var h := [s[0]] + rest[0];
        assert h[|h| - 1] == if rest[0] == [] then s[0] else rest[0][|rest[0]| - 1];
      }
    }
  }

  // ---- All the terms of a program ----

  /** The terms of lines `i` on: each line scanned, its whitespace dropped; the first failing line decides the error. */
  function TermsFrom(lines: seq<string>, i: nat): (r: Result<seq<Term>>)
    decreases |lines| - i
  {
    if i >= |lines| then Ok([])
    else
      match ScanFrom(lines[i], i, 0)
      case Err(e) => Err(e)
      case Ok(ws) => Cat(DropSpaces(ws), TermsFrom(lines, i + 1))
  }

  /** Every term of a successful scan is a non-whitespace term scanned from its own line, and the terms come in
      source order; a failure is a line error of the line it names. */
  lemma {:induction false} TermsFromSound(lines: seq<string>, i: nat)
    ensures TermsFrom(lines, i).Ok? ==> var ts := TermsFrom(lines, i).value;
      Ordered(ts)
      && forall k :: 0 <= k < |ts| ==> (i <= ts[k].line < |lines| && Scanned(lines[ts[k].line], ts[k])
        && ts[k].matcher != Space)
    ensures TermsFrom(lines, i).Err? ==> var e := TermsFrom(lines, i).error;
      e.CompileError? && e.pos.At? && i <= e.pos.line < |lines| && LineError(lines[e.pos.line], e.pos.line, e)
    decreases |lines| - i
  {
    if i < |lines| {
      var scan := ScanFrom(lines[i], i, 0);
      ScanFromTiles(lines[i], i, 0);
      TermsFromSound(lines, i + 1);
      if scan.Ok? {
        TilesOrdered(lines[i], i, scan.value, 0);
        LineTermsKept(lines[i], i, scan.value, TermsFrom(lines, i + 1));
      }
    }
  }

  /** One line's terms, whitespace dropped, in front of the terms of later lines. */
  lemma LineTermsKept(line: string, lineNo: nat, ws: seq<Term>, later: Result<seq<Term>>)
    requires Ordered(ws) && forall k :: 0 <= k < |ws| ==> ws[k].line == lineNo && Scanned(line, ws[k])
    requires later.Ok? ==> Ordered(later.value) && forall k :: 0 <= k < |later.value| ==> later.value[k].line > lineNo
    ensures Cat(DropSpaces(ws), later).Ok? ==> var ts := Cat(DropSpaces(ws), later).value;
      Ordered(ts) && forall k :: 0 <= k < |ts| ==> (ts[k] in DropSpaces(ws) || ts[k] in later.value)
    ensures forall t :: t in DropSpaces(ws) ==> t.line == lineNo && Scanned(line, t) && t.matcher != Space
  {
    var kept := DropSpaces(ws);
    DropSpacesKeeps(ws);
    forall t | t in kept ensures t.line == lineNo && Scanned(line, t) && t.matcher != Space {
      var k :| 0 <= k < |ws| && ws[k] == t;
      ScannedSpace(line, t);
    }
    if later.Ok? {
      OrderedAppend(kept, later.value);
    }
  }

  lemma OrderedAppend(a: seq<Term>, b: seq<Term>)
    requires Ordered(a) && Ordered(b)
    requires forall j, k :: 0 <= j < |a| && 0 <= k < |b| ==> a[j].line < b[k].line
    ensures Ordered(a + b)
    ensures forall k :: 0 <= k < |a + b| ==> (a + b)[k] in a || (a + b)[k] in b
  {
    forall j, k | 0 <= j < k < |a + b| ensures InOrder((a + b)[j], (a + b)[k]) {
      if k < |a| {
        assert (a + b)[j] == a[j] && (a + b)[k] == a[k];
      } else if j >= |a| {
        assert (a + b)[j] == b[j - |a|] && (a + b)[k] == b[k - |a|];
      } else {
        assert (a + b)[j] == a[j] && (a + b)[k] == b[k - |a|];
      }
    }
    forall k | 0 <= k < |a + b| ensures (a + b)[k] in a || (a + b)[k] in b {
      if k < |a| { assert (a + b)[k] == a[k]; } else { assert (a + b)[k] == b[k - |a|]; }
    }
  }

  /** `get_terms`: scan each line of `raw` in turn, appending its words to those of the earlier lines and
      filtering out the whitespace each time, as the `reduce` callback does. */
  method GetTerms(raw: string) returns (r: Result<seq<Term>>)
    ensures r == TermsFrom(SplitLines(raw), 0)
  {
    var lines := SplitLines(raw);
    var terms: seq<Term> := [];
    var i := 0;
    CatNil(TermsFrom(lines, 0));
    while i < |lines|
      invariant i <= |lines|
      invariant DropSpaces(terms) == terms
      invariant TermsFrom(lines, 0) == Cat(terms, TermsFrom(lines, i))
      decreases |lines| - i
    {
      var scanned := ScanLine(lines[i], i);
      if scanned.Err? {
        return Err(scanned.error);
      }
      TermsStep(lines, i, terms, scanned.value);
      terms := DropSpaces(terms + scanned.value);
      i := i + 1;
    }
    CatNil2(terms);
    return Ok(terms);
  }

  /** One more line scanned: the filtered terms so far and the terms of the lines after it. */
  lemma TermsStep(lines: seq<string>, i: nat, terms: seq<Term>, ws: seq<Term>)
    requires i < |lines| && ScanFrom(lines[i], i, 0) == Ok(ws) && DropSpaces(terms) == terms
    ensures DropSpaces(DropSpaces(terms + ws)) == DropSpaces(terms + ws)
    ensures Cat(terms, TermsFrom(lines, i)) == Cat(DropSpaces(terms + ws), TermsFrom(lines, i + 1))
  {
    DropSpacesAppend(terms, ws);
    DropSpacesIdempotent(terms + ws);
    CatAssoc(terms, DropSpaces(ws), TermsFrom(lines, i + 1));
  }

  lemma CatAssoc(a: seq<Term>, b: seq<Term>, r: Result<seq<Term>>)
    ensures Cat(a, Cat(b, r)) == Cat(a + b, r)
  {
    if r.Ok? { assert a + (b + r.value) == (a + b) + r.value; }
  }

  lemma CatNil2(ws: seq<Term>)
    ensures Cat(ws, Ok([])) == Ok(ws)
  {
    assert ws + [] == ws;
  }
}
