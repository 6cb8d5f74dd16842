/** Which postfix code survives being printed and parsed (datalog/expressions.go, parser/grammar.go):
    code can come from a message or a builder as well as from the grammar. */
module Grouping {
  import opened Wrappers
  import opened Types
  import opened StackMachine
  import opened Grammar
  import opened Printing

  /** The level of precedence an operator prints at: 0 binds least; literals and parentheses are 7. */
  function BinaryLevel(b: BinaryOp): nat {
    match b
    case Or => 0
    case And => 1
    case LessThan => 2
    case LessOrEqual => 2
    case GreaterThan => 2
    case GreaterOrEqual => 2
    case Equal => 2
    case Add => 3
    case Sub => 3
    case Mul => 4
    case Div => 4
    case Contains => 6
    case Prefix => 6
    case Suffix => 6
    case Regex => 6
    case Intersection => 6
    case Union => 6
  }

  function UnaryLevel(u: UnaryOp): nat {
    match u
    case Negate => 5
    case Length => 6
    case Parens => 7
  }

  function Level(t: DTree): nat {
    match t
    case Leaf(_) => 7
    case Un(u, _) => UnaryLevel(u)
    case Bin(b, _, _) => BinaryLevel(b)
  }

  /** The least level an operand may print at to keep its place. Comparisons do not chain, the
      argument of a method is between parentheses, and all else groups to the left. */
  function LeftNeed(b: BinaryOp): nat { if BinaryLevel(b) == 2 then 3 else BinaryLevel(b) }

  function RightNeed(b: BinaryOp): nat { if BinaryLevel(b) == 6 then 0 else BinaryLevel(b) + 1 }

  function ArgNeed(u: UnaryOp): nat { if u.Parens? then 0 else 6 }

  /** Every operand prints at a level that keeps its place without further parentheses. */
  predicate Grouped(t: DTree) {
    match t
    case Leaf(_) => true
    case Un(u, arg) => Grouped(arg) && Level(arg) >= ArgNeed(u)
    case Bin(b, l, r) => Grouped(l) && Grouped(r) && Level(l) >= LeftNeed(b) && Level(r) >= RightNeed(b)
  }

  // ---- The tree of an expression is grouped ----

  lemma {:induction false} Grouped0(e: Expr0)
    ensures Grouped(Tree0(e))
    decreases e
  {
    hide Tree1;
    Grouped1(e.left);
    GroupedOr(Tree1(e.left), e.right);
  }

  lemma {:induction false} GroupedOr(acc: DTree, right: seq<Expr1>)
    requires Grouped(acc) && Level(acc) >= 0
    ensures Grouped(GroupOr(acc, right)) && Level(GroupOr(acc, right)) >= 0
    decreases right
  {
    hide Tree1;
    if right != [] {
      Grouped1(right[0]);
      GroupedOr(Bin(Or, acc, Tree1(right[0])), right[1..]);
    }
  }

  lemma {:induction false} Grouped1(e: Expr1)
    ensures Grouped(Tree1(e)) && Level(Tree1(e)) >= 1
    decreases e
  {
    hide Tree2;
    Grouped2(e.left);
    GroupedAnd(Tree2(e.left), e.right);
  }

  lemma {:induction false} GroupedAnd(acc: DTree, right: seq<Expr2>)
    requires Grouped(acc) && Level(acc) >= 1
    ensures Grouped(GroupAnd(acc, right)) && Level(GroupAnd(acc, right)) >= 1
    decreases right
  {
    hide Tree2;
    if right != [] {
      Grouped2(right[0]);
      GroupedAnd(Bin(And, acc, Tree2(right[0])), right[1..]);
    }
  }

  lemma {:induction false} Grouped2(e: Expr2)
    ensures Grouped(Tree2(e)) && Level(Tree2(e)) >= 2
    decreases e
  {
    hide Tree3;
    Grouped3(e.left);
    if e.right.Some? {
      GroupedOp3(e.right.value);
    }
  }

  lemma {:induction false} GroupedOp3(r: OpExpr3)
    ensures Grouped(Tree3(r.expr)) && Level(Tree3(r.expr)) >= 3
    decreases r
  {
    Grouped3(r.expr);
  }

  lemma {:induction false} Grouped3(e: Expr3)
    ensures Grouped(Tree3(e)) && Level(Tree3(e)) >= 3
    decreases e
  {
    hide Tree4;
    Grouped4(e.left);
    GroupedSum(Tree4(e.left), e.right);
  }

  lemma {:induction false} GroupedOp4(r: OpExpr4)
    ensures Grouped(TreeOf4(r)) && Level(TreeOf4(r)) >= 4
    decreases r
  {
    Grouped4(r.expr);
  }

  lemma {:induction false} GroupedSum(acc: DTree, right: seq<OpExpr4>)
    requires Grouped(acc) && Level(acc) >= 3
    ensures Grouped(GroupSum(acc, right)) && Level(GroupSum(acc, right)) >= 3
    decreases right
  {
    hide TreeOf4;
    if right != [] {
      GroupedOp4(right[0]);
      GroupedSum(Bin(SumCode(right[0].op), acc, TreeOf4(right[0])), right[1..]);
    }
  }

  lemma {:induction false} Grouped4(e: Expr4)
    ensures Grouped(Tree4(e)) && Level(Tree4(e)) >= 4
    decreases e
  {
    hide Tree5;
    Grouped5(e.left);
    GroupedProduct(Tree5(e.left), e.right);
  }

  lemma {:induction false} GroupedOp5(r: OpExpr5)
    ensures Grouped(TreeOf5(r)) && Level(TreeOf5(r)) >= 5
    decreases r
  {
    Grouped5(r.expr);
  }

  lemma {:induction false} GroupedProduct(acc: DTree, right: seq<OpExpr5>)
    requires Grouped(acc) && Level(acc) >= 4
    ensures Grouped(GroupProduct(acc, right)) && Level(GroupProduct(acc, right)) >= 4
    decreases right
  {
    hide TreeOf5;
    if right != [] {
      GroupedOp5(right[0]);
      GroupedProduct(Bin(ProductCode(right[0].op), acc, TreeOf5(right[0])), right[1..]);
    }
  }

  lemma {:induction false} Grouped5(e: Expr5)
    ensures Grouped(Tree5(e)) && Level(Tree5(e)) >= 5
    decreases e
  {
    hide Tree6;
    Grouped6(e.expr);
  }

  lemma {:induction false} Grouped6(e: Expr6)
    ensures Grouped(Tree6(e)) && Level(Tree6(e)) >= 6
    decreases e
  {
    hide TreeTerm;
    GroupedTerm(e.left);
    GroupedCalls(TreeTerm(e.left), e.right);
  }

  lemma {:induction false} GroupedCall(acc: DTree, call: OpExpr7)
    requires Grouped(acc) && Level(acc) >= 6
    ensures Grouped(CallTree(acc, call)) && Level(CallTree(acc, call)) >= 6
    decreases call
  {
    hide Tree0;
    if call.Call? {
      Grouped0(call.arg);
    }
  }

  lemma {:induction false} GroupedCalls(acc: DTree, right: seq<OpExpr7>)
    requires Grouped(acc) && Level(acc) >= 6
    ensures Grouped(GroupCalls(acc, right)) && Level(GroupCalls(acc, right)) >= 6
    decreases right
  {
    hide CallTree;
    if right != [] {
      GroupedCall(acc, right[0]);
      GroupedCalls(CallTree(acc, right[0]), right[1..]);
    }
  }

  lemma {:induction false} GroupedTerm(e: ExprTerm)
    ensures Grouped(TreeTerm(e)) && Level(TreeTerm(e)) == 7
    decreases e
  {
    hide Tree0;
    if e.Group? {
      Grouped0(e.expr);
    }
  }

  // ---- A grouped tree is the tree of an expression ----

  lemma {:induction false} GroupOrSnoc(acc: DTree, right: seq<Expr1>, r: Expr1)
    ensures GroupOr(acc, right + [r]) == Bin(Or, GroupOr(acc, right), Tree1(r))
    decreases |right|
  {
    hide Tree0, Tree1, Tree2, TreeOf4, TreeOf5;
    if right == [] {
      assert [] + [r] == [r] && [r][1..] == [];
    } else {
      assert (right + [r])[1..] == right[1..] + [r];
      GroupOrSnoc(Bin(Or, acc, Tree1(right[0])), right[1..], r);
    }
  }

  lemma {:induction false} GroupAndSnoc(acc: DTree, right: seq<Expr2>, r: Expr2)
    ensures GroupAnd(acc, right + [r]) == Bin(And, GroupAnd(acc, right), Tree2(r))
    decreases |right|
  {
    hide Tree0, Tree1, Tree2, TreeOf4, TreeOf5;
    if right == [] {
      assert [] + [r] == [r] && [r][1..] == [];
    } else {
      assert (right + [r])[1..] == right[1..] + [r];
      GroupAndSnoc(Bin(And, acc, Tree2(right[0])), right[1..], r);
    }
  }

  lemma {:induction false} GroupSumSnoc(acc: DTree, right: seq<OpExpr4>, r: OpExpr4)
    ensures GroupSum(acc, right + [r]) == Bin(SumCode(r.op), GroupSum(acc, right), TreeOf4(r))
    decreases |right|
  {
    hide Tree0, Tree1, Tree2, TreeOf4, TreeOf5;
    if right == [] {
      assert [] + [r] == [r] && [r][1..] == [];
    } else {
      assert (right + [r])[1..] == right[1..] + [r];
      GroupSumSnoc(Bin(SumCode(right[0].op), acc, TreeOf4(right[0])), right[1..], r);
    }
  }

  lemma {:induction false} GroupProductSnoc(acc: DTree, right: seq<OpExpr5>, r: OpExpr5)
    ensures GroupProduct(acc, right + [r]) == Bin(ProductCode(r.op), GroupProduct(acc, right), TreeOf5(r))
    decreases |right|
  {
    hide Tree0, Tree1, Tree2, TreeOf4, TreeOf5;
    if right == [] {
      assert [] + [r] == [r] && [r][1..] == [];
    } else {
      assert (right + [r])[1..] == right[1..] + [r];
      GroupProductSnoc(Bin(ProductCode(right[0].op), acc, TreeOf5(right[0])), right[1..], r);
    }
  }

  lemma {:induction false} GroupCallsSnoc(acc: DTree, right: seq<OpExpr7>, r: OpExpr7)
    ensures GroupCalls(acc, right + [r]) == CallTree(GroupCalls(acc, right), r)
    decreases |right|
  {
    hide Tree0, Tree1, Tree2, TreeOf4, TreeOf5;
    if right == [] {
      assert [] + [r] == [r] && [r][1..] == [];
    } else {
      assert (right + [r])[1..] == right[1..] + [r];
      GroupCallsSnoc(CallTree(acc, right[0]), right[1..], r);
    }
  }

  function CompareOf(b: BinaryOp): (op: CompareOp)
    requires BinaryLevel(b) == 2
    ensures CompareCode(op) == b
  {
    if b.LessThan? then Lt else if b.LessOrEqual? then Le else if b.GreaterThan? then Gt
    else if b.GreaterOrEqual? then Ge else Same
  }

  function MethodOf(b: BinaryOp): (op: MethodOp)
    requires BinaryLevel(b) == 6
    ensures MethodCode(op) == b
  {
    if b.Contains? then ContainsCall else if b.Prefix? then StartsWith else if b.Suffix? then EndsWith
    else if b.Regex? then Matches else if b.Intersection? then IntersectionCall else UnionCall
  }

  function Lift0(t: DTree): (e: Expr0)
    requires Grouped(t)
    ensures Tree0(e) == t
    decreases t, 8
  {
    hide Tree1;
    if t.Bin? && t.b.Or? then
      var l, r := Lift0(t.left), Lift1(t.right);
      GroupOrSnoc(Tree1(l.left), l.right, r);
      Expr0(l.left, l.right + [r])
    else Expr0(Lift1(t), [])
  }

  function Lift1(t: DTree): (e: Expr1)
    requires Grouped(t) && Level(t) >= 1
    ensures Tree1(e) == t
    decreases t, 7
  {
    hide Tree2;
    if t.Bin? && t.b.And? then
      var l, r := Lift1(t.left), Lift2(t.right);
      GroupAndSnoc(Tree2(l.left), l.right, r);
      Expr1(l.left, l.right + [r])
    else Expr1(Lift2(t), [])
  }

  function Lift2(t: DTree): (e: Expr2)
    requires Grouped(t) && Level(t) >= 2
    ensures Tree2(e) == t
    decreases t, 6
  {
    hide Tree3;
    if t.Bin? && BinaryLevel(t.b) == 2 then
      Expr2(Lift3(t.left), Some(OpExpr3(CompareOf(t.b), Lift3(t.right))))
    else Expr2(Lift3(t), None)
  }

  function Lift3(t: DTree): (e: Expr3)
    requires Grouped(t) && Level(t) >= 3
    ensures Tree3(e) == t
    decreases t, 5
  {
    hide Tree4;
    if t.Bin? && BinaryLevel(t.b) == 3 then
      var l, r := Lift3(t.left), OpExpr4(if t.b.Add? then Plus else Minus, Lift4(t.right));
      GroupSumSnoc(Tree4(l.left), l.right, r);
      Expr3(l.left, l.right + [r])
    else Expr3(Lift4(t), [])
  }

  function Lift4(t: DTree): (e: Expr4)
    requires Grouped(t) && Level(t) >= 4
    ensures Tree4(e) == t
    decreases t, 4
  {
    hide Tree5;
    if t.Bin? && BinaryLevel(t.b) == 4 then
      var l, r := Lift4(t.left), OpExpr5(if t.b.Mul? then Times else Over, Lift5(t.right));
      GroupProductSnoc(Tree5(l.left), l.right, r);
      Expr4(l.left, l.right + [r])
    else Expr4(Lift5(t), [])
  }

  function Lift5(t: DTree): (e: Expr5)
    requires Grouped(t) && Level(t) >= 5
    ensures Tree5(e) == t
    decreases t, 3
  {
    hide Tree6;
    if t.Un? && t.u.Negate? then Expr5(true, Lift6(t.arg)) else Expr5(false, Lift6(t))
  }

  function Lift6(t: DTree): (e: Expr6)
    requires Grouped(t) && Level(t) >= 6
    ensures Tree6(e) == t
    decreases t, 2
  {
    hide TreeTerm, Tree0;
    if t.Bin? then
      var l, r := Lift6(t.left), Call(MethodOf(t.b), Lift0(t.right));
      GroupCallsSnoc(TreeTerm(l.left), l.right, r);
      Expr6(l.left, l.right + [r])
    else if t.Un? && t.u.Length? then
      var l := Lift6(t.arg);
      GroupCallsSnoc(TreeTerm(l.left), l.right, LengthCall);
      Expr6(l.left, l.right + [LengthCall])
    else Expr6(LiftTerm(t), [])
  }

  function LiftTerm(t: DTree): (e: ExprTerm)
    requires Grouped(t) && Level(t) == 7
    ensures TreeTerm(e) == t
    decreases t, 1
  {
    hide Tree0;
    match t
    case Leaf(x) => Literal(x)
    case Un(_, arg) => Group(Lift0(arg))
  }

  // ---- Code determines its tree ----

  /** What an operation makes of the trees on the stack. */
  function BuildOp(op: Op<string>, stack: seq<DTree>): seq<DTree> {
    var n := |stack|;
    match op
    case Value(x) => stack + [Leaf(x)]
    case Unary(u) => if n < 1 then [] else stack[..n - 1] + [Un(u, stack[n - 1])]
    case Binary(b) => if n < 2 then [] else stack[..n - 2] + [Bin(b, stack[n - 2], stack[n - 1])]
  }

  /** Reads code back into trees, however many values it holds at once. */
  function Build(code: Expression<string>, stack: seq<DTree>): seq<DTree>
    decreases |code|
  {
    if code == [] then stack else Build(code[1..], BuildOp(code[0], stack))
  }

  lemma {:induction false} BuildsTree(t: DTree, rest: Expression<string>, stack: seq<DTree>)
    ensures Build(Code(t) + rest, stack) == Build(rest, stack + [t])
    decreases t
  {
    match t
    case Leaf(x) => BuildsOne(Value(x), rest, stack);
    case Un(u, arg) =>
      hide Build;
      assert Code(t) + rest == Code(arg) + ([Unary(u)] + rest);
      BuildsTree(arg, [Unary(u)] + rest, stack);
      BuildsOne(Unary(u), rest, stack + [arg]);
      assert (stack + [arg])[..|stack|] == stack;
    case Bin(b, l, r) =>
      hide Build;
      assert Code(t) + rest == Code(l) + (Code(r) + ([Binary(b)] + rest));
      BuildsTree(l, Code(r) + ([Binary(b)] + rest), stack);
      BuildsTree(r, [Binary(b)] + rest, stack + [l]);
      BuildsOne(Binary(b), rest, stack + [l] + [r]);
      assert (stack + [l] + [r])[..|stack|] == stack;
  }

  lemma BuildsOne(op: Op<string>, rest: Expression<string>, stack: seq<DTree>)
    ensures Build([op] + rest, stack) == Build(rest, BuildOp(op, stack))
  {
    assert ([op] + rest)[1..] == rest;
  }

  /** Two trees have the same code only if they are the same. */
  lemma CodeInjective(t: DTree, u: DTree)
    ensures Code(t) == Code(u) <==> t == u
  {
    BuildsTree(t, [], []);
    BuildsTree(u, [], []);
    hide Code;
    assert Code(t) + [] == Code(t) && Code(u) + [] == Code(u);
    assert [] + [t] == [t] && [] + [u] == [u];
    assert Build([], [t]) == [t] && Build([], [u]) == [u];
    assert [t][0] == t && [u][0] == u;
  }

  // ---- Exactly the grouped code survives ----

  /** Printing the code succeeds, and the printed tokens parse to an expression of the same code. */
  predicate Survives(code: Expression<string>) {
    var printed := Run(PrintAlgebra(), code);
    && printed.Ok?
    && var e := Parse(printed.value);
       e.Some? && Code(Tree0(e.value)) == code
  }

  /** The code of a tree survives printing and parsing if and only if the tree is grouped and its need
      fits the stack. */
  lemma SurvivesIff(t: DTree)
    ensures Survives(Code(t)) <==> Grouped(t) && Need(t) <= MAX_STACK
  {
    hide Grouped, Code, Need, Tree0, PrintAlgebra, Parse, Fold, Run;
    RunCode(PrintAlgebra(), t);
    if Survives(Code(t)) {
      var e := Parse(Run(PrintAlgebra(), Code(t)).value).value;
      assert Need(t) <= MAX_STACK;
      CodeInjective(t, Tree0(e));
      Grouped0(e);
    }
    if Grouped(t) && Need(t) <= MAX_STACK {
      PrintParseRoundTrip(Lift0(t));
    }
  }

  /** Any code at all survives if and only if it is that of a grouped tree that fits the stack. */
  lemma CodeSurvivesIff(code: Expression<string>)
    ensures Survives(code) <==> exists t :: Code(t) == code && Grouped(t) && Need(t) <= MAX_STACK
  {
    hide Grouped, Need, PrintAlgebra, Parse, Fold, Tree0;
    if Survives(code) {
      var t := RunIsOfTree(PrintAlgebra(), code);
      SurvivesIff(t);
    }
    if t :| Code(t) == code && Grouped(t) && Need(t) <= MAX_STACK {
      SurvivesIff(t);
    }
  }
}
