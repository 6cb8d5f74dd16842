/** The bounded stack machine behind Expression.Evaluate and Expression.Print
    (datalog/expressions.go), for any meaning of values and operators. */
module StackMachine {
  import opened Wrappers
  import opened Types

  /** A push beyond this many values is an error. */
  const MAX_STACK: nat := 1000

  datatype MachineError = BadValue | BadOperand | Underflow | Overflow | NotOneValue

  /** What values and operators stand for; None is an error. */
  datatype Algebra<!S(==), !V> = Algebra(
    leaf: Term<S> -> Option<V>,
    unary: (UnaryOp, V) -> Option<V>,
    binary: (BinaryOp, V, V) -> Option<V>)

  function Push<V>(stack: seq<V>, v: V): Result<seq<V>, MachineError> {
    if |stack| >= MAX_STACK then Err(Overflow) else Ok(stack + [v])
  }

  /** One operation. */
  function Step<S(==), V>(alg: Algebra<S, V>, op: Op<S>, stack: seq<V>): Result<seq<V>, MachineError> {
    var n := |stack|;
    match op
    case Value(t) =>
      (match alg.leaf(t)
       case None => Err(BadValue)
       case Some(v) => Push(stack, v))
    case Unary(u) =>
      if n < 1 then Err(Underflow)
      else
        (match alg.unary(u, stack[n - 1])
         case None => Err(BadOperand)
         case Some(v) => Push(stack[..n - 1], v))
    case Binary(b) =>
      if n < 2 then Err(Underflow)
      else
        (match alg.binary(b, stack[n - 2], stack[n - 1])
         case None => Err(BadOperand)
         case Some(v) => Push(stack[..n - 2], v))
  }

  function Exec<S(==), V>(alg: Algebra<S, V>, code: Expression<S>, stack: seq<V>): Result<seq<V>, MachineError>
    decreases |code|
  {
    if code == [] then Ok(stack)
    else
      match Step(alg, code[0], stack)
      case Err(e) => Err(e)
      case Ok(next) => Exec(alg, code[1..], next)
  }

  /** Running a postfix expression: exactly one value must be left. */
  function Run<S(==), V>(alg: Algebra<S, V>, code: Expression<S>): Result<V, MachineError> {
    match Exec(alg, code, [])
    case Err(e) => Err(e)
    case Ok(stack) => if |stack| == 1 then Ok(stack[0]) else Err(NotOneValue)
  }

  // ---- Trees and their postfix code ----

  datatype Tree<S(==)> =
    | Leaf(term: Term<S>)
    | Un(u: UnaryOp, arg: Tree<S>)
    | Bin(b: BinaryOp, left: Tree<S>, right: Tree<S>)

  function Code<S>(t: Tree<S>): Expression<S> {
    match t
    case Leaf(term) => [Value(term)]
    case Un(u, arg) => Code(arg) + [Unary(u)]
    case Bin(b, l, r) => Code(l) + Code(r) + [Binary(b)]
  }

  /** Eager evaluation, left to right. */
  function Fold<S(==), V>(alg: Algebra<S, V>, t: Tree<S>): Option<V>
    decreases t
  {
    match t
    case Leaf(term) => alg.leaf(term)
    case Un(u, arg) =>
      (match Fold(alg, arg)
       case None => None
       case Some(v) => alg.unary(u, v))
    case Bin(b, l, r) =>
      (match Fold(alg, l)
       case None => None
       case Some(v) =>
         match Fold(alg, r)
         case None => None
         case Some(w) => alg.binary(b, v, w))
  }

  function Max(a: nat, b: nat): nat { if a < b then b else a }

  /** How many values the evaluation of a tree holds at once. */
  function Need<S>(t: Tree<S>): nat {
    match t
    case Leaf(_) => 1
    case Un(_, arg) => Need(arg)
    case Bin(_, l, r) => Max(Need(l), 1 + Need(r))
  }

  // ---- The code of a tree computes the tree ----

  lemma {:induction false} ExecConcat<S, V>(alg: Algebra<S, V>, c: Expression<S>, d: Expression<S>, stack: seq<V>)
    ensures Exec(alg, c + d, stack)
            == match Exec(alg, c, stack)
               case Err(e) => Err(e)
               case Ok(next) => Exec(alg, d, next)
    decreases |c|
  {
    if c == [] {
      assert c + d == d;
    } else {
      assert (c + d)[1..] == c[1..] + d;
      match Step(alg, c[0], stack)
      case Err(_) =>
      case Ok(next) => ExecConcat(alg, c[1..], d, next);
    }
  }

  lemma StepUnary<S, V>(alg: Algebra<S, V>, u: UnaryOp, stack: seq<V>, x: V)
    ensures Step<S, V>(alg, Unary(u), stack + [x])
            == match alg.unary(u, x)
               case None => Err(BadOperand)
               case Some(v) => Push(stack, v)
  {
    assert (stack + [x])[..|stack|] == stack;
  }

  lemma StepBinary<S, V>(alg: Algebra<S, V>, b: BinaryOp, stack: seq<V>, x: V, y: V)
    ensures Step<S, V>(alg, Binary(b), stack + [x] + [y])
            == match alg.binary(b, x, y)
               case None => Err(BadOperand)
               case Some(v) => Push(stack, v)
  {
    assert (stack + [x] + [y])[..|stack|] == stack;
  }

  lemma ExecOne<S, V>(alg: Algebra<S, V>, op: Op<S>, stack: seq<V>)
    ensures Exec(alg, [op], stack) == Step(alg, op, stack)
  {
  }

  /** Running the code of a tree on top of any stack either pushes the tree's value, when the tree
      has one and the stack has room, or stops on a value, an operand or the stack bound: it never
      finds too few values. */
  lemma {:induction false} ExecCode<S, V>(alg: Algebra<S, V>, t: Tree<S>, stack: seq<V>)
    ensures var r := Exec(alg, Code(t), stack);
            if Fold(alg, t).Some? && |stack| + Need(t) <= MAX_STACK then r == Ok(stack + [Fold(alg, t).value])
            else r.Err? && (r.error.BadValue? || r.error.BadOperand? || r.error.Overflow?)
    decreases t
  {
    match t
    case Leaf(term) => ExecOne(alg, Value(term), stack);
    case Un(u, arg) =>
      hide Exec, Step;
      ExecConcat(alg, Code(arg), [Unary(u)], stack);
      ExecCode(alg, arg, stack);
      NeedPositive(arg);
      if Fold(alg, arg).Some? {
        var x := Fold(alg, arg).value;
        ExecOne(alg, Unary(u), stack + [x]);
        StepUnary(alg, u, stack, x);
      }
    case Bin(b, l, r) =>
      hide Exec, Step;
      ExecConcat(alg, Code(l) + Code(r), [Binary(b)], stack);
      ExecConcat(alg, Code(l), Code(r), stack);
      ExecCode(alg, l, stack);
      NeedPositive(l);
      if Fold(alg, l).Some? && |stack| + Need(l) <= MAX_STACK {
        var next := stack + [Fold(alg, l).value];
        ExecCode(alg, r, next);
        if Fold(alg, r).Some? {
          var y := Fold(alg, r).value;
          ExecOne(alg, Binary(b), next + [y]);
          StepBinary(alg, b, stack, Fold(alg, l).value, y);
        }
      }
  }

  lemma {:induction false} NeedPositive<S>(t: Tree<S>)
    ensures Need(t) >= 1
  {
    match t
    case Leaf(_) =>
    case Un(_, arg) => NeedPositive(arg);
    case Bin(_, l, _) => NeedPositive(l);
  }

  /** The machine computes v from the code of a tree exactly when the tree does, and its need fits
      the stack. */
  lemma RunCode<S, V>(alg: Algebra<S, V>, t: Tree<S>)
    ensures var r := Run(alg, Code(t));
            && (forall v :: r == Ok(v) <==> Fold(alg, t) == Some(v) && Need(t) <= MAX_STACK)
            && r != Err(Underflow) && r != Err(NotOneValue)
  {
    ExecCode(alg, t, []);
  }

  // ---- Whatever runs is the code of a tree ----

  function CodeOfAll<S>(ts: seq<Tree<S>>): Expression<S>
    decreases |ts|
  {
    if ts == [] then [] else CodeOfAll(ts[..|ts| - 1]) + Code(ts[|ts| - 1])
  }

  lemma CodeOfAllSnoc<S>(ts: seq<Tree<S>>, t: Tree<S>)
    ensures CodeOfAll(ts + [t]) == CodeOfAll(ts) + Code(t)
  {
    assert (ts + [t])[..|ts|] == ts;
  }

  lemma Regroup<T>(a: seq<T>, b: seq<T>, c: seq<T>, d: seq<T>)
    ensures a + (b + c + d) == a + b + c + d
  {
  }

  lemma BinaryKeepsCode<S>(b: BinaryOp, ts: seq<Tree<S>>, x: Tree<S>, y: Tree<S>)
    ensures CodeOfAll(ts + [Bin(b, x, y)]) == CodeOfAll(ts + [x] + [y]) + [Binary(b)]
  {
    CodeOfAllSnoc(ts, Bin(b, x, y));
    CodeOfAllSnoc(ts, x);
    CodeOfAllSnoc(ts + [x], y);
    hide CodeOfAll;
    Regroup(CodeOfAll(ts), Code(x), Code(y), [Binary(b)]);
  }

  lemma UnaryKeepsCode<S>(u: UnaryOp, ts: seq<Tree<S>>, x: Tree<S>)
    ensures CodeOfAll(ts + [Un(u, x)]) == CodeOfAll(ts + [x]) + [Unary(u)]
  {
    CodeOfAllSnoc(ts, Un(u, x));
    CodeOfAllSnoc(ts, x);
    hide CodeOfAll;
    Regroup(CodeOfAll(ts), Code(x), [], [Unary(u)]);
    assert Code(x) + [] == Code(x) && CodeOfAll(ts) + Code(x) + [] == CodeOfAll(ts) + Code(x);
  }

  /** Building a tree instead of a value keeps the code of the operation. */
  lemma StepKeepsCode<S, V>(alg: Algebra<S, V>, op: Op<S>, stack: seq<V>, ts: seq<Tree<S>>) returns (us: seq<Tree<S>>)
    requires |stack| == |ts| && Step(alg, op, stack).Ok?
    ensures |us| == |Step(alg, op, stack).value|
    ensures CodeOfAll(us) == CodeOfAll(ts) + [op]
  {
    hide CodeOfAll;
    var n := |ts|;
    match op
    case Value(t) =>
      us := ts + [Leaf(t)];
      CodeOfAllSnoc(ts, Leaf(t));
    case Unary(u) =>
      us := ts[..n - 1] + [Un(u, ts[n - 1])];
      UnaryKeepsCode(u, ts[..n - 1], ts[n - 1]);
      assert ts == ts[..n - 1] + [ts[n - 1]];
    case Binary(b) =>
      us := ts[..n - 2] + [Bin(b, ts[n - 2], ts[n - 1])];
      BinaryKeepsCode(b, ts[..n - 2], ts[n - 2], ts[n - 1]);
      assert ts == ts[..n - 2] + [ts[n - 2]] + [ts[n - 1]];
  }

  lemma {:induction false} ExecKeepsCode<S, V>(alg: Algebra<S, V>, code: Expression<S>, stack: seq<V>, ts: seq<Tree<S>>)
    returns (out: seq<Tree<S>>)
    requires |stack| == |ts| && Exec(alg, code, stack).Ok?
    ensures |out| == |Exec(alg, code, stack).value|
    ensures CodeOfAll(out) == CodeOfAll(ts) + code
    decreases |code|
  {
    hide Step, CodeOfAll;
    if code == [] {
      out := ts;
      assert CodeOfAll(ts) + code == CodeOfAll(ts);
    } else {
      var us := StepKeepsCode(alg, code[0], stack, ts);
      out := ExecKeepsCode(alg, code[1..], Step(alg, code[0], stack).value, us);
      assert [code[0]] + code[1..] == code;
    }
  }

  /** Any expression that evaluates is the postfix code of a tree. */
  lemma RunIsOfTree<S, V>(alg: Algebra<S, V>, code: Expression<S>) returns (t: Tree<S>)
    requires Run(alg, code).Ok?
    ensures code == Code(t) && Fold(alg, t) == Some(Run(alg, code).value) && Need(t) <= MAX_STACK
  {
    var out := ExecKeepsCode(alg, code, [], []);
    t := out[0];
    CodeOfAllSnoc([], t);
    assert out == [] + [t];
    assert code == [] + code == [] + Code(t) == Code(t);
    ExecCode(alg, t, []);
  }
}
