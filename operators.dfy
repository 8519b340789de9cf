// The operator tables of the prelude (src/prelude.js): NUM_OPS, BOOL_OPS and STR_OPS. An entry
// receives the popped left and right operands as they are, so the left one may still be a
// one-element array even though its element chose the table.

module Operators {

  import opened Errors
  import opened Values
  import K = Kinds

  // ----- NUM_OPS -----

  /** `a % b` on integers as JavaScript computes it: the remainder takes the sign of `a`. */
  function TruncRem(a: int, b: int): (r: int)
    requires b != 0
    ensures -Abs(b) < r < Abs(b)
    ensures r == 0 || (r < 0 <==> a < 0)
  {
    if a >= 0 then a % Abs(b) else -((-a) % Abs(b))
  }

  function Abs(x: int): int { if x < 0 then -x else x }

  /**
   * NUM_OPS has an entry for every operator. Integer arithmetic, comparisons and strict equality
   * are modelled; float results (an inexact quotient, division by zero), the 32-bit bitwise
   * operators and the coercions of mixed operand types are not.
   */
  function NumOp(op: K.Op, a: Value, b: Value): (r: Result<Value>)
    ensures r.Ok? && a.Num? && b.Num? && op in {K.OpAdd, K.OpSub, K.OpMul, K.OpDiv, K.OpMod} ==> r.value.Num?
    ensures r.Ok? && op in {K.OpEq, K.OpNeq, K.OpLt, K.OpLte, K.OpGt, K.OpGte} ==> r.value.Bool?
  {
    if op == K.OpEq || op == K.OpNeq then
      var e :- StrictEq(a, b);
      Ok(Bool(if op == K.OpEq then e else !e))
    else if op == K.OpAnd || op == K.OpOr || op == K.OpNot then Err(Unmodelled("32-bit bitwise operator"))
    else if !a.Num? || !b.Num? then Err(Unmodelled("arithmetic on a non-number"))
    else IntOp(op, a.n, b.n)
  }

  /** The NUM_OPS entries for arithmetic and ordering, on two integers. */
  function IntOp(op: K.Op, x: int, y: int): Result<Value>
    requires op != K.OpEq && op != K.OpNeq && op != K.OpAnd && op != K.OpOr && op != K.OpNot
  {
    match op
    case OpAdd => Ok(Num(x + y))
    case OpSub => Ok(Num(x - y))
    case OpMul => Ok(Num(x * y))
    case OpDiv =>
      if y == 0 then Err(Unmodelled("division by zero (Infinity or NaN)"))
      else if x % y == 0 then Ok(Num(x / y)) else Err(Unmodelled("non-integer quotient"))
    case OpMod => if y != 0 then Ok(Num(TruncRem(x, y))) else Err(Unmodelled("NaN remainder"))
    case OpLt => Ok(Bool(x < y))
    case OpLte => Ok(Bool(x <= y))
    case OpGt => Ok(Bool(x > y))
    case OpGte => Ok(Bool(x >= y))
  }

  /** On numbers, `!=` is the negation of `==`, and the comparisons are the integer order. */
  lemma NumComparisons(x: int, y: int)
    ensures NumOp(K.OpEq, Num(x), Num(y)) == Ok(Bool(x == y))
    ensures NumOp(K.OpNeq, Num(x), Num(y)) == Ok(Bool(x != y))
    ensures NumOp(K.OpLt, Num(x), Num(y)) == NumOp(K.OpGt, Num(y), Num(x))
    ensures NumOp(K.OpLte, Num(x), Num(y)) == NumOp(K.OpGte, Num(y), Num(x))
  {
  }

  /** The remainder of a negative dividend is negative (`-7 % 2` is `-1`), unlike Dafny's `%`. */
  lemma RemainderSign()
    ensures NumOp(K.OpMod, Num(-7), Num(2)) == Ok(Num(-1))
    ensures NumOp(K.OpMod, Num(7), Num(-2)) == Ok(Num(1))
  {
  }

  // ----- BOOL_OPS -----

  /** The operators BOOL_OPS defines: every one except the arithmetic ones. */
  predicate BoolHas(op: K.Op)
  {
    !(op == K.OpAdd || op == K.OpSub || op == K.OpMul || op == K.OpDiv || op == K.OpMod)
  }

  /** An entry of BOOL_OPS; `&&` and `||` hand back one of their operands, as in JavaScript. */
  function BoolOp(op: K.Op, a: Value, b: Value): Result<Value>
    requires BoolHas(op)
  {
    match op
    case OpAnd => Ok(if Truthy(a) then b else a)
    case OpOr => Ok(if Truthy(a) then a else b)
    case OpNot => Ok(Bool(!Truthy(a)))
    case OpEq => var e :- StrictEq(a, b); Ok(Bool(e))
      // As written, `!=` is the same lambda as `==`.
    case OpNeq => var e :- StrictEq(a, b); Ok(Bool(e))
    case OpLt => Ok(if !Truthy(a) then b else Bool(false))
    case OpLte => Ok(if !Truthy(a) then Bool(true) else b)
    case OpGt => Ok(if Truthy(a) then Bool(!Truthy(b)) else a)
    case OpGte => Ok(if Truthy(a) then a else Bool(!Truthy(b)))
  }

  /** The position of a boolean in the order false < true. */
  function Rank(x: bool): int { if x then 1 else 0 }

  /** The meaning each BOOL_OPS entry evidently stands for on two booleans. */
  function BoolMeaning(op: K.Op, x: bool, y: bool): bool
    requires BoolHas(op)
  {
    match op
    case OpAnd => x && y
    case OpOr => x || y
    case OpNot => !x
    case OpEq => x == y
    case OpNeq => x != y
    case OpLt => Rank(x) < Rank(y)
    case OpLte => Rank(x) <= Rank(y)
    case OpGt => Rank(x) > Rank(y)
    case OpGte => Rank(x) >= Rank(y)
  }

  /**
   * On two booleans every BOOL_OPS entry computes boolean logic and the order false < true,
   * except `!=`, which computes equality.
   */
  lemma BoolOpsOnBooleans(op: K.Op, x: bool, y: bool)
    requires BoolHas(op)
    ensures op != K.OpNeq ==> BoolOp(op, Bool(x), Bool(y)) == Ok(Bool(BoolMeaning(op, x, y)))
    ensures op == K.OpNeq ==> BoolOp(op, Bool(x), Bool(y)) == Ok(Bool(!BoolMeaning(op, x, y)))
  {
  }

  /** The `!=` entry answers `true != false` with false. */
  lemma BoolNotEqualQuirk()
    ensures BoolOp(K.OpNeq, Bool(true), Bool(false)) == Ok(Bool(false))
    ensures BoolOp(K.OpNeq, Bool(true), Bool(true)) == Ok(Bool(true))
  {
  }

  // ----- STR_OPS -----

  /** STR_OPS defines exactly `+`, `*`, `==` and `!=`. */
  predicate StrHas(op: K.Op)
  {
    op == K.OpAdd || op == K.OpMul || op == K.OpEq || op == K.OpNeq
  }

  /** `s.repeat(n)`. */
  function Repeat(s: string, n: nat): (r: string)
  {
    if n == 0 then "" else Repeat(s, n - 1) + s
  }

  /** `s.repeat(n)` is `n * |s|` characters long. */
  lemma {:induction false} RepeatLength(s: string, n: nat)
    ensures |Repeat(s, n)| == n * |s|
  {
    if n > 0 {
      RepeatLength(s, n - 1);
      assert (n - 1) * |s| + |s| == n * |s|;
    }
  }

  /** One more copy can be put at either end. */
  lemma {:induction false} RepeatFront(s: string, n: nat)
    ensures Repeat(s, n + 1) == s + Repeat(s, n)
  {
    if n > 0 {
      RepeatFront(s, n - 1);
      assert Repeat(s, n + 1) == Repeat(s, n) + s == (s + Repeat(s, n - 1)) + s;
    }
  }

  /** An entry of STR_OPS. */
  function StrOp(op: K.Op, a: Value, b: Value): Result<Value>
    requires StrHas(op)
  {
    match op
    case OpAdd =>
      var x :- ToString(a);
      var y :- ToString(b);
      Ok(Str(x + y))
    case OpMul =>
      if !b.Num? then Err(RuntimeError("Cannot multiply string with a number", NoPos))
      else if !a.Str? then Err(HostError("a.repeat is not a function"))
      else if b.n < 0 then Err(HostError("Invalid count value"))
      else Ok(Str(Repeat(a.s, b.n)))
    case OpEq => var e :- StrictEq(a, b); Ok(Bool(e))
    case OpNeq => var e :- StrictEq(a, b); Ok(Bool(!e))
  }

  /**
   * `+` concatenates, converting a number on the right; `*` repeats the string when the right
   * operand is a number and raises otherwise; `==` and `!=` are each other's negation.
   */
  lemma StringOps(x: string, y: Value, n: nat)
    ensures y.Str? ==> StrOp(K.OpAdd, Str(x), y) == Ok(Str(x + y.s))
    ensures StrOp(K.OpAdd, Str(x), Num(n)) == Ok(Str(x + IntToDecimal(n)))
    ensures StrOp(K.OpMul, Str(x), Num(n)) == Ok(Str(Repeat(x, n)))
    ensures !y.Num? ==> StrOp(K.OpMul, Str(x), y).Err? && StrOp(K.OpMul, Str(x), y).error.RuntimeError?
    ensures StrOp(K.OpEq, Str(x), y).Ok? && StrOp(K.OpNeq, Str(x), y).Ok?
    ensures StrOp(K.OpNeq, Str(x), y).value == Bool(!StrOp(K.OpEq, Str(x), y).value.b)
    ensures StrOp(K.OpEq, Str(x), y).value == Bool(y == Str(x))
  {
  }

  /** Strings have no ordering, subtraction, logic or negation operator. */
  lemma StringTableSize()
    ensures forall op: K.Op :: StrHas(op) <==> op in [K.OpAdd, K.OpMul, K.OpEq, K.OpNeq]
  {
  }
}
