/** Expression.Evaluate and the operators of datalog/expressions.go, on resolved symbols.
    A string is the sequence of its bytes, each written as a char. */
module Expressions {
  import opened Wrappers
  import opened Types
  import opened StackMachine
  import opened Datalog

  type DTerm = Term<string>

  /** Matching a text against a pattern; None when the pattern does not compile. */
  type Regexp = (string, string) -> Option<bool>

  function TypeOf<S(==)>(t: Term<S>): nat {
    match t
    case Variable(_) => 0
    case Integer(_) => 1
    case Str(_) => 2
    case Date(_) => 3
    case Bytes(_) => 4
    case Bool(_) => 5
    case Set(_) => 6
  }

  /** An integer result; None on overflow. */
  function Int64<S(==)>(i: int): Option<Term<S>> {
    if MIN_INT64 <= i <= MAX_INT64 then Some(Integer(i)) else None
  }

  function Abs(x: int): nat { if x < 0 then -x else x }

  /** Go's integer division rounds toward zero. */
  function Quotient(a: int, b: int): int
    requires b != 0
  {
    var q := Abs(a) / Abs(b);
    if (a < 0) == (b < 0) then q else -q
  }

  /** The only quotient that leaves the range wraps around. */
  function Divide(a: int64, b: int64): int64
    requires b != 0
  {
    if a == MIN_INT64 && b == -1 then MIN_INT64
    else
      NatQuotient(Abs(a), Abs(b));
      Quotient(a, b)
  }

  lemma NatQuotient(a: nat, b: nat)
    requires b > 0
    ensures 0 <= a - (a / b) * b < b
    ensures 0 <= a / b <= a && (b > 1 && a > 0 ==> a / b < a)
  {
    var q := a / b;
    assert a == q * b + a % b;
    QuotientSmaller(q, b);
  }

  lemma QuotientSmaller(q: nat, b: nat)
    requires b > 0
    ensures q <= q * b && (b > 1 && q > 0 ==> q < q * b)
  {
  }

  predicate PartAt(text: string, part: string, i: nat) {
    i + |part| <= |text| && text[i..i + |part|] == part
  }

  predicate HasSubstring(text: string, part: string) {
    exists i | 0 <= i <= |text| :: PartAt(text, part, i)
  }

  /** The unary operators, given the text of a symbol. */
  function UnaryOver<S(==)>(text: S -> string, u: UnaryOp, v: Term<S>): Option<Term<S>> {
    match u
    case Negate => if v.Bool? then Some(Bool(!v.b)) else None
    case Parens => Some(v)
    case Length =>
      match v
      case Str(s) => Int64(|text(s)|)
      case Bytes(b) => Int64(|b|)
      case Set(es) => Int64(|es|)
      case _ => None
  }

  /** The four orderings: integers or dates, both of one type. */
  function EvalOrder<S(==)>(b: BinaryOp, l: Term<S>, r: Term<S>): Option<Term<S>>
    requires b.LessThan? || b.LessOrEqual? || b.GreaterThan? || b.GreaterOrEqual?
  {
    if !(l.Integer? && r.Integer?) && !(l.Date? && r.Date?) then None
    else
      var (x: int, y: int) := if l.Integer? then (l.i, r.i) else (l.d, r.d);
      match b
      case LessThan => Some(Bool(x < y))
      case LessOrEqual => Some(Bool(x <= y))
      case GreaterThan => Some(Bool(x > y))
      case GreaterOrEqual => Some(Bool(x >= y))
  }

  function EvalContains<S(==)>(text: S -> string, l: Term<S>, r: Term<S>): Option<Term<S>> {
    if l.Str? then if r.Str? then Some(Bool(HasSubstring(text(l.s), text(r.s)))) else None
    else if r.Variable? || !l.Set? then None
    else if r.Set? then Some(Bool(r.elems <= l.elems))
    else Some(Bool(r in l.elems))
  }

  function EvalIntegers<S(==)>(b: BinaryOp, l: Term<S>, r: Term<S>): Option<Term<S>>
    requires b.Add? || b.Sub? || b.Mul? || b.Div?
  {
    if !l.Integer? || !r.Integer? then None
    else
      match b
      case Add => Int64(l.i + r.i)
      case Sub => Int64(l.i - r.i)
      case Mul => Int64(l.i * r.i)
      case Div => if r.i == 0 then None else Some(Integer(Divide(l.i, r.i)))
  }

  /** The operators that test two texts. */
  function EvalTexts<S(==)>(text: S -> string, regexp: Regexp, b: BinaryOp, l: Term<S>, r: Term<S>): Option<Term<S>>
    requires b.Prefix? || b.Suffix? || b.Regex?
  {
    if !l.Str? || !r.Str? then None
    else
      var (left, right) := (text(l.s), text(r.s));
      match b
      case Prefix => Some(Bool(right <= left))
      case Suffix => Some(Bool(|right| <= |left| && left[|left| - |right|..] == right))
      case Regex =>
        match regexp(right, left)
        case None => None
        case Some(found) => Some(Bool(found))
  }

  /** The binary operators but the concatenation of strings, given the text of a symbol. */
  function BinaryOver<S(==)>(text: S -> string, regexp: Regexp, b: BinaryOp, l: Term<S>, r: Term<S>): Option<Term<S>> {
    match b
    case LessThan => EvalOrder(b, l, r)
    case LessOrEqual => EvalOrder(b, l, r)
    case GreaterThan => EvalOrder(b, l, r)
    case GreaterOrEqual => EvalOrder(b, l, r)
    case Equal => if TypeOf(l) != TypeOf(r) || l.Variable? then None else Some(Bool(l == r))
    case Contains => EvalContains(text, l, r)
    case And => if l.Bool? && r.Bool? then Some(Bool(l.b && r.b)) else None
    case Or => if l.Bool? && r.Bool? then Some(Bool(l.b || r.b)) else None
    case Intersection => if l.Set? && r.Set? then Some(Set(l.elems * r.elems)) else None
    case Union => if l.Set? && r.Set? then Some(Set(l.elems + r.elems)) else None
    case Prefix => EvalTexts(text, regexp, b, l, r)
    case Suffix => EvalTexts(text, regexp, b, l, r)
    case Regex => EvalTexts(text, regexp, b, l, r)
    case Add => EvalIntegers(b, l, r)
    case Sub => EvalIntegers(b, l, r)
    case Mul => EvalIntegers(b, l, r)
    case Div => EvalIntegers(b, l, r)
  }

  /** A resolved symbol is its own text. */
  function Itself(s: string): string { s }

  function EvalUnary(u: UnaryOp, v: DTerm): Option<DTerm> { UnaryOver(Itself, u, v) }

  function EvalBinary(regexp: Regexp, b: BinaryOp, l: DTerm, r: DTerm): Option<DTerm> {
    if b.Add? && l.Str? then if r.Str? then Some(Str(l.s + r.s)) else None
    else BinaryOver(Itself, regexp, b, l, r)
  }

  /** A value stands for itself, a variable for what it is bound to. */
  function EvalLeaf(m: Bindings<string>, t: DTerm): Option<DTerm> {
    if !t.Variable? then Some(t) else if t.v in m then Some(m[t.v]) else None
  }

  function EvalAlgebra(regexp: Regexp, m: Bindings<string>): Algebra<string, DTerm> {
    Algebra(t => EvalLeaf(m, t), EvalUnary, (b, l, r) => EvalBinary(regexp, b, l, r))
  }

  /** Expression evaluation as the engine uses it. */
  function EvalOf(regexp: Regexp): Eval {
    (e, m) => match Run(EvalAlgebra(regexp, m), e) case Err(_) => None case Ok(t) => Some(t)
  }

  /** stack.Push and stack.Pop. */
  method PushTerm(stack: seq<DTerm>, v: DTerm) returns (r: Result<seq<DTerm>, MachineError>)
    ensures r == Push(stack, v)
  {
    if |stack| >= MAX_STACK {
      return Err(Overflow);
    }
    r := Ok(stack + [v]);
  }

  method PopTerm(stack: seq<DTerm>) returns (v: Option<DTerm>, rest: seq<DTerm>)
    ensures if stack == [] then v.None? && rest == stack
            else v == Some(stack[|stack| - 1]) && rest == stack[..|stack| - 1]
  {
    if |stack| == 0 {
      return None, stack;
    }
    v, rest := Some(stack[|stack| - 1]), stack[..|stack| - 1];
  }

  /** One turn of the loop of Evaluate. */
  method EvaluateOp(regexp: Regexp, op: Op<string>, m: Bindings<string>, stack: seq<DTerm>)
    returns (r: Result<seq<DTerm>, MachineError>)
    ensures r == Step(EvalAlgebra(regexp, m), op, stack)
  {
    match op
    case Value(t) =>
      var id := t;
      if t.Variable? {
        if t.v !in m {
          return Err(BadValue);
        }
        id := m[t.v];
      }
      r := PushTerm(stack, id);
    case Unary(u) =>
      var v, rest := PopTerm(stack);
      if v.None? {
        return Err(Underflow);
      }
      var res := EvalUnary(u, v.value);
      if res.None? {
        return Err(BadOperand);
      }
      r := PushTerm(rest, res.value);
    case Binary(b) =>
      var right, rest := PopTerm(stack);
      if right.None? {
        return Err(Underflow);
      }
      var left, rest' := PopTerm(rest);
      if left.None? {
        return Err(Underflow);
      }
      var res := EvalBinary(regexp, b, left.value, right.value);
      if res.None? {
        return Err(BadOperand);
      }
      assert rest' == stack[..|stack| - 2];
      r := PushTerm(rest', res.value);
  }

  /** Expression.Evaluate. */
  method Evaluate(regexp: Regexp, e: Expression<string>, m: Bindings<string>) returns (r: Result<DTerm, MachineError>)
    ensures r == Run(EvalAlgebra(regexp, m), e)
  {
    hide Step, EvalAlgebra;
    var stack: seq<DTerm> := [];
    for i := 0 to |e|
      invariant Exec(EvalAlgebra(regexp, m), e, []) == Exec(EvalAlgebra(regexp, m), e[i..], stack)
    {
      var next := EvaluateOp(regexp, e[i], m, stack);
      if next.Err? {
        return Err(next.error);
      }
      stack := next.value;
    }
    if |stack| != 1 {
      return Err(NotOneValue);
    }
    r := Ok(stack[0]);
  }

  // ---- Arithmetic means what the source promises ----

  /** Addition, subtraction and multiplication are exact or report an overflow. */
  lemma ArithmeticIsExact(regexp: Regexp, b: BinaryOp, x: int64, y: int64)
    requires b.Add? || b.Sub? || b.Mul?
    ensures var exact := if b.Add? then x + y else if b.Sub? then x - y else x * y;
            match EvalBinary(regexp, b, Integer(x), Integer(y))
            case Some(t) => t.Integer? && t.i == exact
            case None => exact < MIN_INT64 || exact > MAX_INT64
  {
    var exact := x * y;
  }

  /** Division truncates toward zero, errs on zero only, and is wrong in one case only. */
  lemma DivisionTruncates(regexp: Regexp, x: int64, y: int64)
    ensures var r := EvalBinary(regexp, Div, Integer(x), Integer(y));
            && (r.None? <==> y == 0)
            && (r.Some? && !(x == MIN_INT64 && y == -1) ==>
                  && r.value.Integer?
                  && var rest := (x as int) - r.value.i * y;
                  && Abs(rest) < Abs(y)
                  && (x >= 0 ==> rest >= 0) && (x <= 0 ==> rest <= 0))
            && (x == MIN_INT64 && y == -1 ==> r == Some(Integer(MIN_INT64)))
  {
    if y != 0 {
      NatQuotient(Abs(x), Abs(y));
      SignedProduct(Abs(x) / Abs(y), y);
    }
  }

  lemma SignedProduct(q: int, y: int)
    ensures (-q) * y == -(q * y) && q * (-y) == -(q * y)
  {
  }
}
