/** The expression grammar of parser/grammar.go and its compilation to postfix code. Each level
    of precedence is its own node; the operators are those that Operator.ToExpr maps. */
module Grammar {
  import opened Wrappers
  import opened Types
  import opened StackMachine

  type DOp = Op<string>
  type DTree = Tree<string>

  datatype CompareOp = Le | Ge | Lt | Gt | Same
  datatype SumOp = Plus | Minus
  datatype ProductOp = Times | Over
  datatype MethodOp = Matches | StartsWith | EndsWith | ContainsCall | UnionCall | IntersectionCall

  /** Alternatives joined by `||`. */
  datatype Expr0 = Expr0(left: Expr1, right: seq<Expr1>)

  /** Conditions joined by `&&`. */
  datatype Expr1 = Expr1(left: Expr2, right: seq<Expr2>)

  /** At most one comparison. */
  datatype Expr2 = Expr2(left: Expr3, right: Option<OpExpr3>)
  datatype OpExpr3 = OpExpr3(op: CompareOp, expr: Expr3)

  datatype Expr3 = Expr3(left: Expr4, right: seq<OpExpr4>)
  datatype OpExpr4 = OpExpr4(op: SumOp, expr: Expr4)

  datatype Expr4 = Expr4(left: Expr5, right: seq<OpExpr5>)
  datatype OpExpr5 = OpExpr5(op: ProductOp, expr: Expr5)

  datatype Expr5 = Expr5(negated: bool, expr: Expr6)

  /** Method calls after a term. */
  datatype Expr6 = Expr6(left: ExprTerm, right: seq<OpExpr7>)
  datatype OpExpr7 = Call(op: MethodOp, arg: Expr0) | LengthCall

  datatype ExprTerm = Literal(term: Term<string>) | Group(expr: Expr0)

  // ---- Operator.ToExpr ----

  function CompareCode(op: CompareOp): BinaryOp {
    match op
    case Le => LessOrEqual
    case Ge => GreaterOrEqual
    case Lt => LessThan
    case Gt => GreaterThan
    case Same => Equal
  }

  function SumCode(op: SumOp): BinaryOp {
    match op
    case Plus => Add
    case Minus => Sub
  }

  function ProductCode(op: ProductOp): BinaryOp {
    match op
    case Times => Mul
    case Over => Div
  }

  function MethodCode(op: MethodOp): BinaryOp {
    match op
    case Matches => Regex
    case StartsWith => Prefix
    case EndsWith => Suffix
    case ContainsCall => Contains
    case UnionCall => Union
    case IntersectionCall => Intersection
  }

  // ---- The tree a parse stands for: operators of one level group to the left ----

  function Tree0(e: Expr0): DTree
    decreases e
  {
    GroupOr(Tree1(e.left), e.right)
  }

  function GroupOr(acc: DTree, right: seq<Expr1>): DTree
    decreases right
  {
    if right == [] then acc else GroupOr(Bin(Or, acc, Tree1(right[0])), right[1..])
  }

  function Tree1(e: Expr1): DTree
    decreases e
  {
    GroupAnd(Tree2(e.left), e.right)
  }

  function GroupAnd(acc: DTree, right: seq<Expr2>): DTree
    decreases right
  {
    if right == [] then acc else GroupAnd(Bin(And, acc, Tree2(right[0])), right[1..])
  }

  function Tree2(e: Expr2): DTree
    decreases e
  {
    match e.right
    case None => Tree3(e.left)
    case Some(r) => Bin(CompareCode(r.op), Tree3(e.left), Tree3(r.expr))
  }

  function Tree3(e: Expr3): DTree
    decreases e
  {
    GroupSum(Tree4(e.left), e.right)
  }

  function TreeOf4(r: OpExpr4): DTree
    decreases r
  {
    Tree4(r.expr)
  }

  function GroupSum(acc: DTree, right: seq<OpExpr4>): DTree
    decreases right
  {
    if right == [] then acc else GroupSum(Bin(SumCode(right[0].op), acc, TreeOf4(right[0])), right[1..])
  }

  function Tree4(e: Expr4): DTree
    decreases e
  {
    GroupProduct(Tree5(e.left), e.right)
  }

  function TreeOf5(r: OpExpr5): DTree
    decreases r
  {
    Tree5(r.expr)
  }

  function GroupProduct(acc: DTree, right: seq<OpExpr5>): DTree
    decreases right
  {
    if right == [] then acc else GroupProduct(Bin(ProductCode(right[0].op), acc, TreeOf5(right[0])), right[1..])
  }

  function Tree5(e: Expr5): DTree
    decreases e
  {
    if e.negated then Un(Negate, Tree6(e.expr)) else Tree6(e.expr)
  }

  function Tree6(e: Expr6): DTree
    decreases e
  {
    GroupCalls(TreeTerm(e.left), e.right)
  }

  function CallTree(acc: DTree, call: OpExpr7): DTree
    decreases call
  {
    match call
    case Call(op, arg) => Bin(MethodCode(op), acc, Tree0(arg))
    case LengthCall => Un(Length, acc)
  }

  function GroupCalls(acc: DTree, right: seq<OpExpr7>): DTree
    decreases right
  {
    if right == [] then acc else GroupCalls(CallTree(acc, right[0]), right[1..])
  }

  function TreeTerm(e: ExprTerm): DTree
    decreases e
  {
    match e
    case Literal(t) => Leaf(t)
    case Group(inner) => Un(Parens, Tree0(inner))
  }

  // ---- The ToExpr methods: each appends to the expression it is given ----

  class Buffer {
    var ops: seq<DOp>

    constructor ()
      ensures ops == []
    {
      ops := [];
    }

    method Append(op: DOp)
      modifies this
      ensures ops == old(ops) + [op]
    {
      ops := ops + [op];
    }
  }

  /** Appending the right operand and the operator completes the code of a binary node. */
  lemma AppendBinary(before: seq<DOp>, b: BinaryOp, l: DTree, r: DTree)
    ensures before + Code(l) + Code(r) + [Binary(b)] == before + Code(Bin(b, l, r))
  {
    Regroup(before, Code(l), Code(r), [Binary(b)]);
  }

  lemma AppendUnary(before: seq<DOp>, u: UnaryOp, t: DTree)
    ensures before + Code(t) + [Unary(u)] == before + Code(Un(u, t))
  {
  }

  method ToExpr0(e: Expr0, buf: Buffer)
    modifies buf
    ensures buf.ops == old(buf.ops) + Code(Tree0(e))
    decreases e
  {
    hide Code, Tree1;
    ToExpr1(e.left, buf);
    ghost var acc := Tree1(e.left);
    for i := 0 to |e.right|
      invariant GroupOr(acc, e.right[i..]) == Tree0(e)
      invariant buf.ops == old(buf.ops) + Code(acc)
    {
      ToExpr1(e.right[i], buf);
      buf.Append(Binary(Or));
      AppendBinary(old(buf.ops), Or, acc, Tree1(e.right[i]));
      acc := Bin(Or, acc, Tree1(e.right[i]));
    }
  }

  method ToExpr1(e: Expr1, buf: Buffer)
    modifies buf
    ensures buf.ops == old(buf.ops) + Code(Tree1(e))
    decreases e
  {
    hide Code, Tree2;
    ToExpr2(e.left, buf);
    ghost var acc := Tree2(e.left);
    for i := 0 to |e.right|
      invariant GroupAnd(acc, e.right[i..]) == Tree1(e)
      invariant buf.ops == old(buf.ops) + Code(acc)
    {
      ToExpr2(e.right[i], buf);
      buf.Append(Binary(And));
      AppendBinary(old(buf.ops), And, acc, Tree2(e.right[i]));
      acc := Bin(And, acc, Tree2(e.right[i]));
    }
  }

  method ToExpr2(e: Expr2, buf: Buffer)
    modifies buf
    ensures buf.ops == old(buf.ops) + Code(Tree2(e))
    decreases e
  {
    hide Code, Tree3;
    ToExpr3(e.left, buf);
    if e.right.Some? {
      var r := e.right.value;
      ToExpr3(r.expr, buf);
      buf.Append(Binary(CompareCode(r.op)));
      AppendBinary(old(buf.ops), CompareCode(r.op), Tree3(e.left), Tree3(r.expr));
    }
  }

  method ToExpr3(e: Expr3, buf: Buffer)
    modifies buf
    ensures buf.ops == old(buf.ops) + Code(Tree3(e))
    decreases e
  {
    hide Code, Tree4;
    ToExpr4(e.left, buf);
    ghost var acc := Tree4(e.left);
    for i := 0 to |e.right|
      invariant GroupSum(acc, e.right[i..]) == Tree3(e)
      invariant buf.ops == old(buf.ops) + Code(acc)
    {
      ToExpr4(e.right[i].expr, buf);
      buf.Append(Binary(SumCode(e.right[i].op)));
      AppendBinary(old(buf.ops), SumCode(e.right[i].op), acc, Tree4(e.right[i].expr));
      acc := Bin(SumCode(e.right[i].op), acc, Tree4(e.right[i].expr));
    }
  }

  method ToExpr4(e: Expr4, buf: Buffer)
    modifies buf
    ensures buf.ops == old(buf.ops) + Code(Tree4(e))
    decreases e
  {
    hide Code, Tree5;
    ToExpr5(e.left, buf);
    ghost var acc := Tree5(e.left);
    for i := 0 to |e.right|
      invariant GroupProduct(acc, e.right[i..]) == Tree4(e)
      invariant buf.ops == old(buf.ops) + Code(acc)
    {
      ToExpr5(e.right[i].expr, buf);
      buf.Append(Binary(ProductCode(e.right[i].op)));
      AppendBinary(old(buf.ops), ProductCode(e.right[i].op), acc, Tree5(e.right[i].expr));
      acc := Bin(ProductCode(e.right[i].op), acc, Tree5(e.right[i].expr));
    }
  }

  method ToExpr5(e: Expr5, buf: Buffer)
    modifies buf
    ensures buf.ops == old(buf.ops) + Code(Tree5(e))
    decreases e
  {
    hide Code, Tree6;
    ToExpr6(e.expr, buf);
    if e.negated {
      buf.Append(Unary(Negate));
      AppendUnary(old(buf.ops), Negate, Tree6(e.expr));
    }
  }

  method ToExpr6(e: Expr6, buf: Buffer)
    modifies buf
    ensures buf.ops == old(buf.ops) + Code(Tree6(e))
    decreases e
  {
    hide Code, TreeTerm;
    ToExprTerm(e.left, buf);
    ghost var acc := TreeTerm(e.left);
    for i := 0 to |e.right|
      invariant GroupCalls(acc, e.right[i..]) == Tree6(e)
      invariant buf.ops == old(buf.ops) + Code(acc)
    {
      ToExpr7(e.right[i], buf, acc, old(buf.ops));
      acc := CallTree(acc, e.right[i]);
    }
  }

  method ToExpr7(call: OpExpr7, buf: Buffer, ghost acc: DTree, ghost before: seq<DOp>)
    requires buf.ops == before + Code(acc)
    modifies buf
    ensures buf.ops == before + Code(CallTree(acc, call))
    decreases call
  {
    hide Code, Tree0;
    match call
    case Call(op, arg) =>
      ToExpr0(arg, buf);
      buf.Append(Binary(MethodCode(op)));
      AppendBinary(before, MethodCode(op), acc, Tree0(arg));
    case LengthCall =>
      buf.Append(Unary(Length));
      AppendUnary(before, Length, acc);
  }

  method ToExprTerm(e: ExprTerm, buf: Buffer)
    modifies buf
    ensures buf.ops == old(buf.ops) + Code(TreeTerm(e))
    decreases e
  {
    match e
    case Literal(t) => buf.Append(Value(t));
    case Group(inner) =>
      hide Code, Tree0;
      ToExpr0(inner, buf);
      buf.Append(Unary(Parens));
      AppendUnary(old(buf.ops), Parens, Tree0(inner));
  }

  /** The postfix code of a parsed expression. */
  method Compile(e: Expr0) returns (code: Expression<string>)
    ensures code == Code(Tree0(e))
  {
    var buf := new Buffer();
    ToExpr0(e, buf);
    code := buf.ops;
  }

  /** Compilation is correct: under any meaning of values and operators, the stack machine computes
      v from the compiled code exactly when eager left-to-right evaluation of the tree gives v and
      the tree's need fits the stack. It never underflows and always ends with one value. */
  lemma CompiledCodeComputesTree<V>(alg: Algebra<string, V>, e: Expr0)
    ensures var r := Run(alg, Code(Tree0(e)));
            && (forall v :: r == Ok(v) <==> Fold(alg, Tree0(e)) == Some(v) && Need(Tree0(e)) <= MAX_STACK)
            && r != Err(Underflow) && r != Err(NotOneValue)
  {
    RunCode(alg, Tree0(e));
  }
}
