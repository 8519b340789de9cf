// Runtime values of the evaluator (src/interpreter.js, src/prelude.js): what an instruction
// evaluates to, JavaScript truthiness, strict equality and string conversion, and the numeric
// value of a NUMBER term (`+word`).

module Values {

  import opened Errors
  import opened Syntax
  import K = Kinds

  /** The patterns of the prelude; each is a singleton object of kind PATTERN. */
  datatype Builtin = PrintLn | Print | Version | If | For | While | Ident | Break | Raise

  datatype Value =
    | Undefined
    | Null
    | Bool(b: bool)
      /** A number; only integers are modelled. */
    | Num(n: int)
    | Str(s: string)
      /** A JavaScript array, as built by a TUPLE; holes read as Undefined. */
    | Arr(items: seq<Value>)
      /** A FUNCTION literal, returned by its executor unchanged. */
    | Fn(params: seq<Param>, code: Instr, isMethod: bool)
      /** A DEFINE_PATTERN instruction, as stored in a frame's or a struct's `patterns`. */
    | Pat(name: string, params: seq<Param>, code: Instr, isMethod: bool, pos: Pos)
    | Prim(builtin: Builtin)
      /**
       * A StructInstance, by its identity; `copy` marks the shallow copy `{...instance}` bound to
       * `self`, which shares the instance's fields but is another object without `to_context`.
       */
    | Inst(id: nat, copy: bool)
      /** The prelude's `__break` Symbol. */
    | BreakSym
      /** KINDS.NOT_FOUND, which the PATTERN executor hands back as a value. */
    | NotFound

  /** A DEFINE_PATTERN instruction, as the value a frame or a struct stores for it. */
  function PatternValue(i: Instr): Value
  {
    if i.DefinePattern? then Pat(i.name, i.params, i.code, i.isMethod, i.pos) else Undefined
  }

  /** JavaScript truthiness: Symbols, arrays and objects are truthy, even when empty. */
  predicate Truthy(v: Value)
  {
    match v
    case Undefined => false
    case Null => false
    case Bool(b) => b
    case Num(n) => n != 0
    case Str(s) => s != ""
    case _ => true
  }

  /** `v.kind`, for the values that have one. */
  function KindTag(v: Value): Option<K.Kind>
  {
    match v
    case Fn(_, _, _) => Some(K.Function)
    case Pat(_, _, _, _, _) => Some(K.DefinePattern)
    case Prim(_) => Some(K.Pattern)
    case Inst(_, _) => Some(K.StructInstance)
    case _ => None
  }

  /** Does `v.kind` equal `k`? */
  predicate HasKind(v: Value, k: K.Kind)
  {
    KindTag(v) == Some(k)
  }

  /** The `fn.kind === FUNCTION || fn.kind === PATTERN` test of the prelude. */
  predicate IsCallable(v: Value)
  {
    HasKind(v, K.Function) || HasKind(v, K.Pattern)
  }

  /** Whether a prelude pattern carries an `_execute` host function. */
  predicate HasExecute(b: Builtin)
  {
    b != Version && b != Break
  }

  /** `Array.isArray(v) && v.length === 1 ? v[0] : v`. */
  function Collapse(v: Value): (r: Value)
    ensures !v.Arr? ==> r == v
    ensures v.Arr? && |v.items| != 1 ==> r == v
  {
    if v.Arr? && |v.items| == 1 then v.items[0] else v
  }

  /** `xs[i]`, undefined past the end. */
  function Nth(xs: seq<Value>, i: nat): (r: Value)
    ensures i >= |xs| ==> r == Undefined
  {
    if i < |xs| then xs[i] else Undefined
  }

  /**
   * Values whose `===` compares an identity the model does not track: arrays, function and
   * pattern objects, and the `self` copies, of which every call makes a new one.
   */
  predicate IsIdentityObject(v: Value)
  {
    v.Arr? || v.Fn? || v.Pat? || (v.Inst? && v.copy)
  }

  predicate SameShape(a: Value, b: Value)
  {
    (a.Arr? && b.Arr?) || (a.Fn? && b.Fn?) || (a.Pat? && b.Pat?) || (a.Inst? && a.copy && b.Inst? && b.copy)
  }

  /** `a === b`. */
  function StrictEq(a: Value, b: Value): (r: Result<bool>)
    ensures r.Err? <==> IsIdentityObject(a) && SameShape(a, b)
    ensures r.Ok? && r.value ==> a == b
    ensures r.Ok? && !IsIdentityObject(a) ==> (r.value <==> a == b)
  {
    if SameShape(a, b) then Err(Unmodelled("identity of arrays and functions"))
    else Ok(a == b)
  }

  /** Strict equality is symmetric. */
  lemma StrictEqSymmetric(a: Value, b: Value)
    ensures StrictEq(a, b) == StrictEq(b, a)
  {
  }

  // ----- Numbers and their text -----

  predicate IsDigit(c: char) { '0' <= c <= '9' }

  predicate AllDigits(s: string)
  {
    forall i :: 0 <= i < |s| ==> IsDigit(s[i])
  }

  function DigitChar(d: nat): (c: char)
    requires d < 10
    ensures IsDigit(c) && c as int - '0' as int == d
  {
    (d + '0' as int) as char
  }

  /** The decimal digits of `n`, most significant first, with no leading zero. */
  function NatToDecimal(n: nat): (r: string)
    ensures |r| > 0 && AllDigits(r)
    ensures |r| > 1 ==> r[0] != '0'
  {
    if n < 10 then [DigitChar(n)] else NatToDecimal(n / 10) + [DigitChar(n % 10)]
  }

  /** `String(n)` for an integer. */
  function IntToDecimal(n: int): string
  {
    if n < 0 then "-" + NatToDecimal(-n) else NatToDecimal(n)
  }

  function DigitsValue(s: string): nat
    requires AllDigits(s)
  {
    if s == [] then 0 else DigitsValue(s[..|s| - 1]) * 10 + (s[|s| - 1] as int - '0' as int)
  }

  /** The index of the first '.', or |s|. */
  function DotIndex(s: string): (k: nat)
    ensures k <= |s| && '.' !in s[..k]
    ensures k < |s| ==> s[k] == '.'
  {
    if s == [] then 0
    else if s[0] == '.' then 0
    else
      assert s[1..][..DotIndex(s[1..])] == s[1..DotIndex(s[1..]) + 1];
      1 + DotIndex(s[1..])
  }

  predicate AllZeros(s: string)
  {
    forall i :: 0 <= i < |s| ==> s[i] == '0'
  }

  /**
   * `+word` for the text of a NUMBER term (`-?\d+(\.\d*)?`). A fraction with a non-zero
   * digit is outside the model.
   */
  function NumberValue(word: string): (r: Result<Value>)
    ensures r.Ok? ==> r.value.Num?
  {
    var neg := |word| > 0 && word[0] == '-';
    var body := if neg then word[1..] else word;
    var k := DotIndex(body);
    var whole := body[..k];
    var fraction := if k < |body| then body[k + 1..] else "";
    if whole == [] || !AllDigits(whole) || !AllDigits(fraction) then Err(Unmodelled("number syntax"))
    else if !AllZeros(fraction) then Err(Unmodelled("fractional number"))
    else
      var m: int := DigitsValue(whole);
      Ok(Num(if neg then -m else m))
  }

  lemma {:induction false} DecimalDigits(n: nat)
    ensures DigitsValue(NatToDecimal(n)) == n
  {
    if n >= 10 {
      var s := NatToDecimal(n);
      assert s[..|s| - 1] == NatToDecimal(n / 10);
      DecimalDigits(n / 10);
    }
  }

  lemma NoDotInDigits(s: string)
    requires AllDigits(s)
    ensures DotIndex(s) == |s|
  {
    var k := DotIndex(s);
    if k < |s| {
      assert false;
    }
  }

  /** Printing an integer and reading it back as a NUMBER term gives the integer. */
  lemma DecimalRoundTrip(n: int)
    ensures NumberValue(IntToDecimal(n)) == Ok(Num(n))
  {
    var word := IntToDecimal(n);
    var digits := if n < 0 then NatToDecimal(-n) else NatToDecimal(n);
    if n < 0 {
      assert word[1..] == digits;
    }
    assert word[0] == '-' <==> n < 0;
    NoDotInDigits(digits);
    assert digits[..|digits|] == digits;
    DecimalDigits(if n < 0 then -n else n);
  }

  /** Only the fractional digits keep a NUMBER term out of the model: `1.50` is not an integer, `7.` is. */
  lemma NumberExamples()
    ensures NumberValue("7.") == Ok(Num(7))
    ensures NumberValue("-12") == Ok(Num(-12))
    ensures NumberValue("1.50") == Err(Unmodelled("fractional number"))
  {
    assert DotIndex("7.") == 1 && DotIndex("1.50") == 1;
    assert "7."[..1] == "7";
    assert DigitsValue("7") == 7 by { assert "7"[..0] == ""; }
    assert DigitsValue("12") == 12 by { assert "1"[..0] == ""; }
    assert "7."[2..] == "";
    assert "-12"[1..] == "12";
    assert "12"[..1] == "1";
    assert DotIndex("12") == 2 by { NoDotInDigits("12"); }
    assert "12"[..2] == "12";
    assert "1.50"[..1] == "1";
    assert "1.50"[2..] == "50";
    assert !AllZeros("50") by { assert "50"[0] != '0'; }
  }

  // ----- String conversion -----

  /** The implicit string conversion of `"" + v` and of `Array.prototype.join`, both of which
      throw on a Symbol. */
  function ToString(v: Value): Result<string>
    decreases v, 1
  {
    match v
    case Undefined => Ok("undefined")
    case Null => Ok("null")
    case Bool(b) => Ok(if b then "true" else "false")
    case Num(n) => Ok(IntToDecimal(n))
    case Str(s) => Ok(s)
    case Arr(items) => JoinWith(items, ",")
    case BreakSym => Err(HostError("Cannot convert a Symbol value to a string"))
    case NotFound => Err(HostError("Cannot convert a Symbol value to a string"))
    case _ => Ok("[object Object]")
  }

  /** `items.join(sep)`, where null and undefined elements print as nothing. */
  function JoinWith(items: seq<Value>, sep: string): Result<string>
    decreases items, 0
  {
    if items == [] then Ok("")
    else
      var head :- if items[0].Undefined? || items[0].Null? then Ok("") else ToString(items[0]);
      if |items| == 1 then Ok(head)
      else
        var rest :- JoinWith(items[1..], sep);
        Ok(head + sep + rest)
  }

  /** Conversion fails exactly on Symbols, wherever they sit inside nested arrays. */
  lemma {:induction false} ToStringFails(v: Value)
    ensures ToString(v).Err? <==> HoldsSymbol(v)
    decreases v, 1
  {
    if v.Arr? {
      JoinFails(v.items, ",");
    }
  }

  lemma {:induction false} JoinFails(items: seq<Value>, sep: string)
    ensures JoinWith(items, sep).Err? <==> exists i :: 0 <= i < |items| && HoldsSymbol(items[i])
    decreases items, 0
  {
    if items != [] {
      ToStringFails(items[0]);
      JoinFails(items[1..], sep);
      if exists i :: 0 <= i < |items| && HoldsSymbol(items[i]) {
        var i :| 0 <= i < |items| && HoldsSymbol(items[i]);
        if i > 0 {
          assert items[1..][i - 1] == items[i];
        }
      }
      if exists i :: 0 <= i < |items| - 1 && HoldsSymbol(items[1..][i]) {
        var i :| 0 <= i < |items| - 1 && HoldsSymbol(items[1..][i]);
        assert items[i + 1] == items[1..][i];
      }
    }
  }

  /** Whether `v` is a Symbol or an array holding one at any depth. */
  predicate HoldsSymbol(v: Value)
  {
    match v
    case BreakSym => true
    case NotFound => true
    case Arr(items) => exists i :: 0 <= i < |items| && HoldsSymbol(items[i])
    case _ => false
  }
}
