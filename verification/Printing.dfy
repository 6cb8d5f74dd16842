/** Expression.Print (datalog/expressions.go) and the token-level parser of the expression
    grammar (parser/grammar.go): printing compiled code and parsing it gives the code back. */
module Printing {
  import opened Wrappers
  import opened Types
  import opened StackMachine
  import opened Grammar

  /** Literals and variables are atomic tokens. */
  datatype Token =
    | Lit(term: Term<string>)
    | OrSign | AndSign
    | CompareSign(c: CompareOp)
    | SumSign(s: SumOp)
    | ProductSign(p: ProductOp)
    | Bang | Open | Close | Dot
    | MethodName(m: MethodOp) | LengthName

  type Text = seq<Token>

  // ---- Printing ----

  function PrintUnary(u: UnaryOp, v: Text): Text {
    match u
    case Negate => [Bang] + v
    case Parens => [Open] + v + [Close]
    case Length => v + [Dot, LengthName, Open, Close]
  }

  function Infix(sign: Token, l: Text, r: Text): Text { l + [sign] + r }

  function MethodText(m: MethodOp, l: Text, r: Text): Text { l + [Dot, MethodName(m), Open] + r + [Close] }

  function PrintBinary(b: BinaryOp, l: Text, r: Text): Text {
    match b
    case LessThan => Infix(CompareSign(Lt), l, r)
    case LessOrEqual => Infix(CompareSign(Le), l, r)
    case GreaterThan => Infix(CompareSign(Gt), l, r)
    case GreaterOrEqual => Infix(CompareSign(Ge), l, r)
    case Equal => Infix(CompareSign(Same), l, r)
    case Contains => MethodText(ContainsCall, l, r)
    case Prefix => MethodText(StartsWith, l, r)
    case Suffix => MethodText(EndsWith, l, r)
    case Regex => MethodText(Matches, l, r)
    case Add => Infix(SumSign(Plus), l, r)
    case Sub => Infix(SumSign(Minus), l, r)
    case Mul => Infix(ProductSign(Times), l, r)
    case Div => Infix(ProductSign(Over), l, r)
    case And => Infix(AndSign, l, r)
    case Or => Infix(OrSign, l, r)
    case Intersection => MethodText(IntersectionCall, l, r)
    case Union => MethodText(UnionCall, l, r)
  }

  function PrintAlgebra(): Algebra<string, Text> {
    Algebra(t => Some([Lit(t)]), (u, v) => Some(PrintUnary(u, v)), (b, l, r) => Some(PrintBinary(b, l, r)))
  }

  /** Expression.Print: None where the source prints an error message. */
  method Print(code: Expression<string>) returns (r: Option<Text>)
    ensures r == match Run(PrintAlgebra(), code) case Ok(text) => Some(text) case Err(_) => None
  {
    var stack: seq<Text> := [];
    for i := 0 to |code|
      invariant Exec(PrintAlgebra(), code, []) == Exec(PrintAlgebra(), code[i..], stack)
    {
      var n := |stack|;
      match code[i]
      case Value(t) =>
        if n >= MAX_STACK {
          return None;
        }
        stack := stack + [[Lit(t)]];
      case Unary(u) =>
        if n < 1 {
          return None;
        }
        if n - 1 >= MAX_STACK {
          return None;
        }
        stack := stack[..n - 1] + [PrintUnary(u, stack[n - 1])];
      case Binary(b) =>
        if n < 2 {
          return None;
        }
        if n - 2 >= MAX_STACK {
          return None;
        }
        stack := stack[..n - 2] + [PrintBinary(b, stack[n - 2], stack[n - 1])];
    }
    if |stack| != 1 {
      return None;
    }
    r := Some(stack[0]);
  }

  // ---- The tokens of a parse ----

  function Text0(e: Expr0): Text
    decreases e
  {
    Text1(e.left) + OrText(e.right)
  }

  function OrText(right: seq<Expr1>): Text
    decreases right
  {
    if right == [] then [] else [OrSign] + Text1(right[0]) + OrText(right[1..])
  }

  function Text1(e: Expr1): Text
    decreases e
  {
    Text2(e.left) + AndText(e.right)
  }

  function AndText(right: seq<Expr2>): Text
    decreases right
  {
    if right == [] then [] else [AndSign] + Text2(right[0]) + AndText(right[1..])
  }

  function Text2(e: Expr2): Text
    decreases e
  {
    Text3(e.left) + match e.right case None => [] case Some(r) => [CompareSign(r.op)] + Text3(r.expr)
  }

  function Text3(e: Expr3): Text
    decreases e
  {
    Text4(e.left) + SumText(e.right)
  }

  function OpText4(r: OpExpr4): Text
    decreases r
  {
    [SumSign(r.op)] + Text4(r.expr)
  }

  function SumText(right: seq<OpExpr4>): Text
    decreases right
  {
    if right == [] then [] else OpText4(right[0]) + SumText(right[1..])
  }

  function Text4(e: Expr4): Text
    decreases e
  {
    Text5(e.left) + ProductText(e.right)
  }

  function OpText5(r: OpExpr5): Text
    decreases r
  {
    [ProductSign(r.op)] + Text5(r.expr)
  }

  function ProductText(right: seq<OpExpr5>): Text
    decreases right
  {
    if right == [] then [] else OpText5(right[0]) + ProductText(right[1..])
  }

  function Text5(e: Expr5): Text
    decreases e
  {
    (if e.negated then [Bang] else []) + Text6(e.expr)
  }

  function Text6(e: Expr6): Text
    decreases e
  {
    TermText(e.left) + CallsText(e.right)
  }

  function CallText(call: OpExpr7): Text
    decreases call
  {
    match call
    case Call(op, arg) => [Dot, MethodName(op), Open] + Text0(arg) + [Close]
    case LengthCall => [Dot, LengthName, Open, Close]
  }

  function CallsText(right: seq<OpExpr7>): Text
    decreases right
  {
    if right == [] then [] else CallText(right[0]) + CallsText(right[1..])
  }

  function TermText(e: ExprTerm): Text
    decreases e
  {
    match e
    case Literal(t) => [Lit(t)]
    case Group(inner) => [Open] + Text0(inner) + [Close]
  }

  // ---- Printing the compiled code writes exactly those tokens ----

  /** Printing the tree writes this text. */
  predicate Prints(t: DTree, text: Text) {
    Fold(PrintAlgebra(), t) == Some(text)
  }

  lemma PrintsBinary(b: BinaryOp, l: DTree, r: DTree, left: Text, right: Text)
    requires Prints(l, left) && Prints(r, right)
    ensures Prints(Bin(b, l, r), PrintBinary(b, left, right))
  {
  }

  lemma PrintsUnary(u: UnaryOp, t: DTree, text: Text)
    requires Prints(t, text)
    ensures Prints(Un(u, t), PrintUnary(u, text))
  {
  }

  lemma Append<T>(a: seq<T>, b: seq<T>, c: seq<T>)
    ensures (a + b) + c == a + (b + c)
  {
  }

  lemma {:induction false} Prints0(e: Expr0)
    ensures Prints(Tree0(e), Text0(e))
    decreases e
  {
    hide Prints, Tree1, Text1;
    Prints1(e.left);
    PrintsGroupOr(Tree1(e.left), e.right, Text1(e.left));
  }

  lemma {:induction false} PrintsGroupOr(acc: DTree, right: seq<Expr1>, text: Text)
    requires Prints(acc, text)
    ensures Prints(GroupOr(acc, right), text + OrText(right))
    decreases right
  {
    hide Prints, Tree1, Text1;
    if right == [] {
      assert text + [] == text;
    } else {
      Prints1(right[0]);
      PrintsBinary(Or, acc, Tree1(right[0]), text, Text1(right[0]));
      PrintsGroupOr(Bin(Or, acc, Tree1(right[0])), right[1..], text + [OrSign] + Text1(right[0]));
      Append(text, [OrSign], Text1(right[0]));
      Append(text, [OrSign] + Text1(right[0]), OrText(right[1..]));
    }
  }

  lemma {:induction false} Prints1(e: Expr1)
    ensures Prints(Tree1(e), Text1(e))
    decreases e
  {
    hide Prints, Tree2, Text2;
    Prints2(e.left);
    PrintsGroupAnd(Tree2(e.left), e.right, Text2(e.left));
  }

  lemma {:induction false} PrintsGroupAnd(acc: DTree, right: seq<Expr2>, text: Text)
    requires Prints(acc, text)
    ensures Prints(GroupAnd(acc, right), text + AndText(right))
    decreases right
  {
    hide Prints, Tree2, Text2;
    if right == [] {
      assert text + [] == text;
    } else {
      Prints2(right[0]);
      PrintsBinary(And, acc, Tree2(right[0]), text, Text2(right[0]));
      PrintsGroupAnd(Bin(And, acc, Tree2(right[0])), right[1..], text + [AndSign] + Text2(right[0]));
      Append(text, [AndSign], Text2(right[0]));
      Append(text, [AndSign] + Text2(right[0]), AndText(right[1..]));
    }
  }

  lemma {:induction false} Prints2(e: Expr2)
    ensures Prints(Tree2(e), Text2(e))
    decreases e
  {
    hide Prints, Tree3, Text3;
    Prints3(e.left);
    match e.right
    case None => assert Text3(e.left) + [] == Text3(e.left);
    case Some(r) =>
      Prints3(r.expr);
      PrintsBinary(CompareCode(r.op), Tree3(e.left), Tree3(r.expr), Text3(e.left), Text3(r.expr));
      Append(Text3(e.left), [CompareSign(r.op)], Text3(r.expr));
  }

  lemma {:induction false} PrintsOp4(r: OpExpr4)
    ensures Prints(TreeOf4(r), Text4(r.expr))
    decreases r
  {
    Prints4(r.expr);
  }

  lemma {:induction false} PrintsOp5(r: OpExpr5)
    ensures Prints(TreeOf5(r), Text5(r.expr))
    decreases r
  {
    Prints5(r.expr);
  }

  lemma {:induction false} Prints3(e: Expr3)
    ensures Prints(Tree3(e), Text3(e))
    decreases e
  {
    hide Prints, Tree4, Text4;
    Prints4(e.left);
    PrintsGroupSum(Tree4(e.left), e.right, Text4(e.left));
  }

  lemma {:induction false} PrintsGroupSum(acc: DTree, right: seq<OpExpr4>, text: Text)
    requires Prints(acc, text)
    ensures Prints(GroupSum(acc, right), text + SumText(right))
    decreases right
  {
    hide Prints, Tree4, Text4;
    if right == [] {
      assert text + [] == text;
    } else {
      PrintsOp4(right[0]);
      PrintsBinary(SumCode(right[0].op), acc, TreeOf4(right[0]), text, Text4(right[0].expr));
      PrintsGroupSum(Bin(SumCode(right[0].op), acc, TreeOf4(right[0])), right[1..],
                     text + [SumSign(right[0].op)] + Text4(right[0].expr));
      Append(text, [SumSign(right[0].op)], Text4(right[0].expr));
      Append(text, [SumSign(right[0].op)] + Text4(right[0].expr), SumText(right[1..]));
    }
  }

  lemma {:induction false} Prints4(e: Expr4)
    ensures Prints(Tree4(e), Text4(e))
    decreases e
  {
    hide Prints, Tree5, Text5;
    Prints5(e.left);
    PrintsGroupProduct(Tree5(e.left), e.right, Text5(e.left));
  }

  lemma {:induction false} PrintsGroupProduct(acc: DTree, right: seq<OpExpr5>, text: Text)
    requires Prints(acc, text)
    ensures Prints(GroupProduct(acc, right), text + ProductText(right))
    decreases right
  {
    hide Prints, Tree5, Text5;
    if right == [] {
      assert text + [] == text;
    } else {
      PrintsOp5(right[0]);
      PrintsBinary(ProductCode(right[0].op), acc, TreeOf5(right[0]), text, Text5(right[0].expr));
      PrintsGroupProduct(Bin(ProductCode(right[0].op), acc, TreeOf5(right[0])), right[1..],
                         text + [ProductSign(right[0].op)] + Text5(right[0].expr));
      Append(text, [ProductSign(right[0].op)], Text5(right[0].expr));
      Append(text, [ProductSign(right[0].op)] + Text5(right[0].expr), ProductText(right[1..]));
    }
  }

  lemma {:induction false} Prints5(e: Expr5)
    ensures Prints(Tree5(e), Text5(e))
    decreases e
  {
    hide Prints, Tree6, Text6;
    Prints6(e.expr);
    if e.negated {
      PrintsUnary(Negate, Tree6(e.expr), Text6(e.expr));
    } else {
      assert [] + Text6(e.expr) == Text6(e.expr);
    }
  }

  lemma {:induction false} Prints6(e: Expr6)
    ensures Prints(Tree6(e), Text6(e))
    decreases e
  {
    hide Prints, TreeTerm, TermText;
    PrintsTerm(e.left);
    PrintsGroupCalls(TreeTerm(e.left), e.right, TermText(e.left));
  }

  lemma {:induction false} PrintsCall(acc: DTree, call: OpExpr7, text: Text)
    requires Prints(acc, text)
    ensures Prints(CallTree(acc, call), text + CallText(call))
    decreases call
  {
    hide Prints, Tree0, Text0;
    match call
    case Call(op, arg) =>
      Prints0(arg);
      PrintsBinary(MethodCode(op), acc, Tree0(arg), text, Text0(arg));
      assert text + [Dot, MethodName(op), Open] + Text0(arg) + [Close]
          == text + ([Dot, MethodName(op), Open] + Text0(arg) + [Close]);
    case LengthCall => PrintsUnary(Length, acc, text);
  }

  lemma {:induction false} PrintsGroupCalls(acc: DTree, right: seq<OpExpr7>, text: Text)
    requires Prints(acc, text)
    ensures Prints(GroupCalls(acc, right), text + CallsText(right))
    decreases right
  {
    hide Prints, CallTree, CallText;
    if right == [] {
      assert text + [] == text;
    } else {
      PrintsCall(acc, right[0], text);
      PrintsGroupCalls(CallTree(acc, right[0]), right[1..], text + CallText(right[0]));
      Append(text, CallText(right[0]), CallsText(right[1..]));
    }
  }

  lemma {:induction false} PrintsTerm(e: ExprTerm)
    ensures Prints(TreeTerm(e), TermText(e))
    decreases e
  {
    match e
    case Literal(_) =>
    case Group(inner) =>
      hide Prints, Tree0, Text0;
      Prints0(inner);
      PrintsUnary(Parens, Tree0(inner), Text0(inner));
  }

  // ---- Parsing: one token of lookahead, alternatives in the order of the grammar ----

  /** The level of the operators a token starts; other tokens continue nothing. */
  function Level(t: Token): int {
    match t
    case OrSign => 0
    case AndSign => 1
    case CompareSign(_) => 2
    case SumSign(_) => 3
    case ProductSign(_) => 4
    case Dot => 6
    case _ => -1
  }

  /** What follows does not continue an expression of this level. */
  predicate Stops(level: int, rest: Text) {
    rest == [] || Level(rest[0]) < level
  }

  function Parse0(ts: Text): (r: Option<(Expr0, Text)>)
    ensures r.Some? ==> |r.value.1| < |ts|
    decreases |ts|, 20
  {
    match Parse1(ts)
    case None => None
    case Some((l, rest)) =>
      match ParseOrs(rest)
      case None => None
      case Some((right, rest')) => Some((Expr0(l, right), rest'))
  }

  function ParseOrs(ts: Text): (r: Option<(seq<Expr1>, Text)>)
    ensures r.Some? ==> |r.value.1| <= |ts|
    decreases |ts|, 19
  {
    if ts == [] || !ts[0].OrSign? then Some(([], ts))
    else
      match Parse1(ts[1..])
      case None => None
      case Some((e, rest)) =>
        match ParseOrs(rest)
        case None => None
        case Some((right, rest')) => Some(([e] + right, rest'))
  }

  function Parse1(ts: Text): (r: Option<(Expr1, Text)>)
    ensures r.Some? ==> |r.value.1| < |ts|
    decreases |ts|, 18
  {
    match Parse2(ts)
    case None => None
    case Some((l, rest)) =>
      match ParseAnds(rest)
      case None => None
      case Some((right, rest')) => Some((Expr1(l, right), rest'))
  }

  function ParseAnds(ts: Text): (r: Option<(seq<Expr2>, Text)>)
    ensures r.Some? ==> |r.value.1| <= |ts|
    decreases |ts|, 17
  {
    if ts == [] || !ts[0].AndSign? then Some(([], ts))
    else
      match Parse2(ts[1..])
      case None => None
      case Some((e, rest)) =>
        match ParseAnds(rest)
        case None => None
        case Some((right, rest')) => Some(([e] + right, rest'))
  }

  function Parse2(ts: Text): (r: Option<(Expr2, Text)>)
    ensures r.Some? ==> |r.value.1| < |ts|
    decreases |ts|, 16
  {
    match Parse3(ts)
    case None => None
    case Some((l, rest)) =>
      if rest == [] || !rest[0].CompareSign? then Some((Expr2(l, None), rest))
      else
        match Parse3(rest[1..])
        case None => None
        case Some((e, rest')) => Some((Expr2(l, Some(OpExpr3(rest[0].c, e))), rest'))
  }

  function Parse3(ts: Text): (r: Option<(Expr3, Text)>)
    ensures r.Some? ==> |r.value.1| < |ts|
    decreases |ts|, 14
  {
    match Parse4(ts)
    case None => None
    case Some((l, rest)) =>
      match ParseSums(rest)
      case None => None
      case Some((right, rest')) => Some((Expr3(l, right), rest'))
  }

  function ParseSums(ts: Text): (r: Option<(seq<OpExpr4>, Text)>)
    ensures r.Some? ==> |r.value.1| <= |ts|
    decreases |ts|, 13
  {
    if ts == [] || !ts[0].SumSign? then Some(([], ts))
    else
      match Parse4(ts[1..])
      case None => None
      case Some((e, rest)) =>
        match ParseSums(rest)
        case None => None
        case Some((right, rest')) => Some(([OpExpr4(ts[0].s, e)] + right, rest'))
  }

  function Parse4(ts: Text): (r: Option<(Expr4, Text)>)
    ensures r.Some? ==> |r.value.1| < |ts|
    decreases |ts|, 12
  {
    match Parse5(ts)
    case None => None
    case Some((l, rest)) =>
      match ParseProducts(rest)
      case None => None
      case Some((right, rest')) => Some((Expr4(l, right), rest'))
  }

  function ParseProducts(ts: Text): (r: Option<(seq<OpExpr5>, Text)>)
    ensures r.Some? ==> |r.value.1| <= |ts|
    decreases |ts|, 11
  {
    if ts == [] || !ts[0].ProductSign? then Some(([], ts))
    else
      match Parse5(ts[1..])
      case None => None
      case Some((e, rest)) =>
        match ParseProducts(rest)
        case None => None
        case Some((right, rest')) => Some(([OpExpr5(ts[0].p, e)] + right, rest'))
  }

  function Parse5(ts: Text): (r: Option<(Expr5, Text)>)
    ensures r.Some? ==> |r.value.1| < |ts|
    decreases |ts|, 10
  {
    var negated := ts != [] && ts[0].Bang?;
    match Parse6(if negated then ts[1..] else ts)
    case None => None
    case Some((e, rest)) => Some((Expr5(negated, e), rest))
  }

  function Parse6(ts: Text): (r: Option<(Expr6, Text)>)
    ensures r.Some? ==> |r.value.1| < |ts|
    decreases |ts|, 8
  {
    match ParseTerm(ts)
    case None => None
    case Some((l, rest)) =>
      match ParseCalls(rest)
      case None => None
      case Some((right, rest')) => Some((Expr6(l, right), rest'))
  }

  /** A method name, an argument unless the next token closes the call, and the close. Calls with
      the wrong number of arguments are not expressions of this grammar. */
  function ParseCall(ts: Text): (r: Option<(OpExpr7, Text)>)
    ensures r.Some? ==> |r.value.1| < |ts|
    decreases |ts|, 6
  {
    if |ts| < 4 || !ts[0].Dot? || !ts[2].Open? then None
    else if ts[1].LengthName? then
      if ts[3].Close? then Some((LengthCall, ts[4..])) else None
    else if ts[1].MethodName? then
      match Parse0(ts[3..])
      case None => None
      case Some((arg, rest)) =>
        if rest != [] && rest[0].Close? then Some((Call(ts[1].m, arg), rest[1..])) else None
    else None
  }

  function ParseCalls(ts: Text): (r: Option<(seq<OpExpr7>, Text)>)
    ensures r.Some? ==> |r.value.1| <= |ts|
    decreases |ts|, 7
  {
    if ts == [] || !ts[0].Dot? then Some(([], ts))
    else
      match ParseCall(ts)
      case None => None
      case Some((call, rest)) =>
        match ParseCalls(rest)
        case None => None
        case Some((right, rest')) => Some(([call] + right, rest'))
  }

  function ParseTerm(ts: Text): (r: Option<(ExprTerm, Text)>)
    ensures r.Some? ==> |r.value.1| < |ts|
    decreases |ts|, 6
  {
    if ts == [] then None
    else if ts[0].Lit? then Some((Literal(ts[0].term), ts[1..]))
    else if ts[0].Open? then
      match Parse0(ts[1..])
      case None => None
      case Some((inner, rest)) =>
        if rest != [] && rest[0].Close? then Some((Group(inner), rest[1..])) else None
    else None
  }

  /** A whole text. */
  function Parse(ts: Text): Option<Expr0> {
    match Parse0(ts)
    case None => None
    case Some((e, rest)) => if rest == [] then Some(e) else None
  }

  // ---- Parsing the tokens of an expression gives the expression back ----

  lemma {:induction false} ParsesBack0(e: Expr0, rest: Text)
    requires Stops(0, rest)
    ensures Parse0(Text0(e) + rest) == Some((e, rest))
    decreases e
  {
    hide Text1, Parse1, ParseOrs;
    Append(Text1(e.left), OrText(e.right), rest);
    OrTextStarts(e.right, rest);
    ParsesBack1(e.left, OrText(e.right) + rest);
    ParsesBackOrText(e.right, rest);
  }

  lemma OrTextStarts(right: seq<Expr1>, rest: Text)
    requires Stops(0, rest)
    ensures Stops(1, OrText(right) + rest)
  {
    if right == [] {
      assert [] + rest == rest;
    } else {
      assert (OrText(right) + rest)[0] == OrSign;
    }
  }

  lemma {:induction false} ParsesBackOrText(right: seq<Expr1>, rest: Text)
    requires Stops(0, rest)
    ensures ParseOrs(OrText(right) + rest) == Some((right, rest))
    decreases right
  {
    hide Text1, Parse1;
    if right == [] {
      assert [] + rest == rest;
    } else {
      var ts, more := OrText(right) + rest, OrText(right[1..]) + rest;
      Append([OrSign] + Text1(right[0]), OrText(right[1..]), rest);
      Append([OrSign], Text1(right[0]), more);
      assert ts[0] == OrSign && ts[1..] == Text1(right[0]) + more;
      OrTextStarts(right[1..], rest);
      ParsesBack1(right[0], more);
      ParsesBackOrText(right[1..], rest);
      assert right == [right[0]] + right[1..];
    }
  }

  lemma {:induction false} ParsesBack1(e: Expr1, rest: Text)
    requires Stops(1, rest)
    ensures Parse1(Text1(e) + rest) == Some((e, rest))
    decreases e
  {
    hide Text2, Parse2, ParseAnds;
    Append(Text2(e.left), AndText(e.right), rest);
    AndTextStarts(e.right, rest);
    ParsesBack2(e.left, AndText(e.right) + rest);
    ParsesBackAndText(e.right, rest);
  }

  lemma AndTextStarts(right: seq<Expr2>, rest: Text)
    requires Stops(1, rest)
    ensures Stops(2, AndText(right) + rest)
  {
    if right == [] {
      assert [] + rest == rest;
    } else {
      assert (AndText(right) + rest)[0] == AndSign;
    }
  }

  lemma {:induction false} ParsesBackAndText(right: seq<Expr2>, rest: Text)
    requires Stops(1, rest)
    ensures ParseAnds(AndText(right) + rest) == Some((right, rest))
    decreases right
  {
    hide Text2, Parse2;
    if right == [] {
      assert [] + rest == rest;
    } else {
      var ts, more := AndText(right) + rest, AndText(right[1..]) + rest;
      Append([AndSign] + Text2(right[0]), AndText(right[1..]), rest);
      Append([AndSign], Text2(right[0]), more);
      assert ts[0] == AndSign && ts[1..] == Text2(right[0]) + more;
      AndTextStarts(right[1..], rest);
      ParsesBack2(right[0], more);
      ParsesBackAndText(right[1..], rest);
      assert right == [right[0]] + right[1..];
    }
  }

  lemma {:induction false} ParsesBack2(e: Expr2, rest: Text)
    requires Stops(2, rest)
    ensures Parse2(Text2(e) + rest) == Some((e, rest))
    decreases e
  {
    hide Text3, Parse3;
    match e.right
    case None =>
      assert Text3(e.left) + [] + rest == Text3(e.left) + rest;
      ParsesBack3(e.left, rest);
    case Some(r) =>
      var more := [CompareSign(r.op)] + Text3(r.expr);
      Append(Text3(e.left), more, rest);
      Append([CompareSign(r.op)], Text3(r.expr), rest);
      assert (more + rest)[0] == CompareSign(r.op) && (more + rest)[1..] == Text3(r.expr) + rest;
      ParsesBack3(e.left, more + rest);
      ParsesBack3(r.expr, rest);
  }

  lemma {:induction false} ParsesBackOp4(r: OpExpr4, rest: Text)
    requires Stops(4, rest)
    ensures Parse4(Text4(r.expr) + rest) == Some((r.expr, rest))
    decreases r
  {
    ParsesBack4(r.expr, rest);
  }

  lemma {:induction false} ParsesBackOp5(r: OpExpr5, rest: Text)
    requires Stops(5, rest)
    ensures Parse5(Text5(r.expr) + rest) == Some((r.expr, rest))
    decreases r
  {
    ParsesBack5(r.expr, rest);
  }

  lemma {:induction false} ParsesBack3(e: Expr3, rest: Text)
    requires Stops(3, rest)
    ensures Parse3(Text3(e) + rest) == Some((e, rest))
    decreases e
  {
    hide Text4, Parse4, ParseSums;
    Append(Text4(e.left), SumText(e.right), rest);
    SumTextStarts(e.right, rest);
    ParsesBack4(e.left, SumText(e.right) + rest);
    ParsesBackSumText(e.right, rest);
  }

  lemma SumTextStarts(right: seq<OpExpr4>, rest: Text)
    requires Stops(3, rest)
    ensures Stops(4, SumText(right) + rest)
  {
    if right == [] {
      assert [] + rest == rest;
    } else {
      assert OpText4(right[0]) == [SumSign(right[0].op)] + Text4(right[0].expr);
      assert (SumText(right) + rest)[0] == SumSign(right[0].op);
    }
  }

  lemma SumsEnd(rest: Text)
    requires Stops(3, rest)
    ensures ParseSums(rest) == Some(([], rest))
  {
  }

  lemma OneSum(r: OpExpr4, more: Text, right: seq<OpExpr4>, rest: Text)
    requires Parse4(Text4(r.expr) + more) == Some((r.expr, more)) && ParseSums(more) == Some((right, rest))
    ensures ParseSums(OpText4(r) + more) == Some(([r] + right, rest))
  {
    hide Text4, Parse4;
    var ts := [SumSign(r.op)] + Text4(r.expr) + more;
    Append([SumSign(r.op)], Text4(r.expr), more);
    assert ts[1..] == Text4(r.expr) + more;
  }

  lemma {:induction false} ParsesBackSumText(right: seq<OpExpr4>, rest: Text)
    requires Stops(3, rest)
    ensures ParseSums(SumText(right) + rest) == Some((right, rest))
    decreases right
  {
    hide Text4, Parse4, OpText4, ParseSums, Stops;
    if right == [] {
      SumsEnd(rest);
      assert [] + rest == rest;
    } else {
      var more := SumText(right[1..]) + rest;
      Append(OpText4(right[0]), SumText(right[1..]), rest);
      SumTextStarts(right[1..], rest);
      ParsesBackOp4(right[0], more);
      ParsesBackSumText(right[1..], rest);
      OneSum(right[0], more, right[1..], rest);
      assert right == [right[0]] + right[1..];
    }
  }

  lemma {:induction false} ParsesBack4(e: Expr4, rest: Text)
    requires Stops(4, rest)
    ensures Parse4(Text4(e) + rest) == Some((e, rest))
    decreases e
  {
    hide Text5, Parse5, ParseProducts;
    Append(Text5(e.left), ProductText(e.right), rest);
    ProductTextStarts(e.right, rest);
    ParsesBack5(e.left, ProductText(e.right) + rest);
    ParsesBackProductText(e.right, rest);
  }

  lemma ProductTextStarts(right: seq<OpExpr5>, rest: Text)
    requires Stops(4, rest)
    ensures Stops(5, ProductText(right) + rest)
  {
    if right == [] {
      assert [] + rest == rest;
    } else {
      assert OpText5(right[0]) == [ProductSign(right[0].op)] + Text5(right[0].expr);
      assert (ProductText(right) + rest)[0] == ProductSign(right[0].op);
    }
  }

  lemma ProductsEnd(rest: Text)
    requires Stops(4, rest)
    ensures ParseProducts(rest) == Some(([], rest))
  {
  }

  lemma OneProduct(r: OpExpr5, more: Text, right: seq<OpExpr5>, rest: Text)
    requires Parse5(Text5(r.expr) + more) == Some((r.expr, more)) && ParseProducts(more) == Some((right, rest))
    ensures ParseProducts(OpText5(r) + more) == Some(([r] + right, rest))
  {
    hide Text5, Parse5;
    var ts := [ProductSign(r.op)] + Text5(r.expr) + more;
    Append([ProductSign(r.op)], Text5(r.expr), more);
    assert ts[1..] == Text5(r.expr) + more;
  }

  lemma {:induction false} ParsesBackProductText(right: seq<OpExpr5>, rest: Text)
    requires Stops(4, rest)
    ensures ParseProducts(ProductText(right) + rest) == Some((right, rest))
    decreases right
  {
    hide Text5, Parse5, OpText5, ParseProducts, Stops;
    if right == [] {
      ProductsEnd(rest);
      assert [] + rest == rest;
    } else {
      var more := ProductText(right[1..]) + rest;
      Append(OpText5(right[0]), ProductText(right[1..]), rest);
      ProductTextStarts(right[1..], rest);
      ParsesBackOp5(right[0], more);
      ParsesBackProductText(right[1..], rest);
      OneProduct(right[0], more, right[1..], rest);
      assert right == [right[0]] + right[1..];
    }
  }

  lemma {:induction false} ParsesBack5(e: Expr5, rest: Text)
    requires Stops(5, rest)
    ensures Parse5(Text5(e) + rest) == Some((e, rest))
    decreases e
  {
    hide Text6, Parse6;
    ParsesBack6(e.expr, rest);
    var ts := Text5(e) + rest;
    if e.negated {
      Append([Bang], Text6(e.expr), rest);
      assert ts[0] == Bang && ts[1..] == Text6(e.expr) + rest;
    } else {
      assert [] + Text6(e.expr) == Text6(e.expr);
      TextStarts6(e.expr);
      assert ts[0] == Text6(e.expr)[0];
    }
  }

  lemma TextStarts6(e: Expr6)
    ensures |Text6(e)| > 0 && Text6(e)[0] != Bang
  {
  }

  lemma {:induction false} ParsesBack6(e: Expr6, rest: Text)
    requires Stops(6, rest)
    ensures Parse6(Text6(e) + rest) == Some((e, rest))
    decreases e
  {
    hide TermText, ParseTerm, ParseCalls;
    Append(TermText(e.left), CallsText(e.right), rest);
    ParsesBackTerm(e.left, CallsText(e.right) + rest);
    ParsesBackCalls(e.right, rest);
  }

  lemma {:induction false} ParsesBackCall(call: OpExpr7, rest: Text)
    ensures ParseCall(CallText(call) + rest) == Some((call, rest))
    decreases call
  {
    hide Text0, Parse0;
    var ts := CallText(call) + rest;
    match call
    case LengthCall => assert ts[4..] == rest;
    case Call(op, arg) =>
      ParsesBack0(arg, [Close] + rest);
      Append([Dot, MethodName(op), Open] + Text0(arg), [Close], rest);
      Append([Dot, MethodName(op), Open], Text0(arg), [Close] + rest);
      assert ts[3..] == Text0(arg) + ([Close] + rest);
      assert ([Close] + rest)[1..] == rest;
  }

  lemma {:induction false} ParsesBackCalls(right: seq<OpExpr7>, rest: Text)
    requires Stops(6, rest)
    ensures ParseCalls(CallsText(right) + rest) == Some((right, rest))
    decreases right
  {
    hide ParseCall;
    if right == [] {
      assert [] + rest == rest;
    } else {
      var more := CallsText(right[1..]) + rest;
      Append(CallText(right[0]), CallsText(right[1..]), rest);
      assert (CallText(right[0]) + more)[0] == Dot;
      ParsesBackCall(right[0], more);
      ParsesBackCalls(right[1..], rest);
      assert right == [right[0]] + right[1..];
    }
  }

  lemma {:induction false} ParsesBackTerm(e: ExprTerm, rest: Text)
    ensures ParseTerm(TermText(e) + rest) == Some((e, rest))
    decreases e
  {
    hide Text0, Parse0;
    var ts := TermText(e) + rest;
    match e
    case Literal(t) => assert ts[1..] == rest;
    case Group(inner) =>
      ParsesBack0(inner, [Close] + rest);
      Append([Open] + Text0(inner), [Close], rest);
      Append([Open], Text0(inner), [Close] + rest);
      assert ts[1..] == Text0(inner) + ([Close] + rest);
      assert ([Close] + rest)[1..] == rest;
  }

  // ---- The round trip ----

  /** Printing compiled code succeeds exactly when the code fits the stack, and parsing the printed
      tokens gives back the same expression, so the same code, parentheses and precedence
      included. */
  lemma PrintParseRoundTrip(e: Expr0)
    ensures var printed := Run(PrintAlgebra(), Code(Tree0(e)));
            && (printed.Ok? <==> Need(Tree0(e)) <= MAX_STACK)
            && (printed.Ok? ==> Parse(printed.value) == Some(e))
  {
    Prints0(e);
    ExecCode(PrintAlgebra(), Tree0(e), []);
    ParsesBack0(e, []);
    assert Text0(e) + [] == Text0(e);
  }

  /** A literal, alone, as a product of one, and multiplied with itself. */
  function Alone(x: Term<string>): Expr5 { Expr5(false, Expr6(Literal(x), [])) }

  function AsProduct(x: Term<string>): Expr4 { Expr4(Alone(x), []) }

  function Square(x: Term<string>): Expr4 { Expr4(Alone(x), [OpExpr5(Times, Alone(x))]) }

  lemma LiteralText(x: Term<string>)
    ensures Text5(Alone(x)) == [Lit(x)] && Tree5(Alone(x)) == Leaf(x)
  {
    var literal := Expr6(Literal(x), []);
    assert Text6(literal) == [Lit(x)] + [] == [Lit(x)];
    assert Tree6(literal) == GroupCalls(TreeTerm(Literal(x)), []) == TreeTerm(Literal(x)) == Leaf(x);
  }

  lemma SquareText(x: Term<string>)
    ensures Text4(AsProduct(x)) == [Lit(x)] && Tree4(AsProduct(x)) == Leaf(x)
    ensures Text4(Square(x)) == [Lit(x), ProductSign(Times), Lit(x)]
    ensures Tree4(Square(x)) == Bin(Mul, Leaf(x), Leaf(x))
  {
    LiteralText(x);
    hide Text5, Tree5, Alone;
    var products := [OpExpr5(Times, Alone(x))];
    assert products[1..] == [];
    assert ProductText(products) == OpText5(OpExpr5(Times, Alone(x))) + ProductText([]) == [ProductSign(Times), Lit(x)];
    assert TreeOf5(products[0]) == Leaf(x);
    assert GroupProduct(Leaf(x), products) == GroupProduct(Bin(Mul, Leaf(x), Leaf(x)), []);
    assert Text4(AsProduct(x)) == [Lit(x)] + ProductText([]) == [Lit(x)];
    assert Tree4(AsProduct(x)) == GroupProduct(Leaf(x), []) == Leaf(x);
  }

  /** x + x * x. */
  function SumOfSquare(x: Term<string>): Expr0 {
    Expr0(Expr1(Expr2(Expr3(AsProduct(x), [OpExpr4(Plus, Square(x))]), None), []), [])
  }

  lemma SumOfSquareText(x: Term<string>)
    ensures var text := [Lit(x), SumSign(Plus), Lit(x), ProductSign(Times), Lit(x)];
            && Text0(SumOfSquare(x)) == text
            && Tree0(SumOfSquare(x)) == Bin(Add, Leaf(x), Bin(Mul, Leaf(x), Leaf(x)))
  {
    SquareText(x);
    hide Text4, Tree4, AsProduct, Square;
    var sums := [OpExpr4(Plus, Square(x))];
    assert sums[1..] == [];
    var sum := Expr3(AsProduct(x), sums);
    assert SumText(sums) == OpText4(OpExpr4(Plus, Square(x))) + SumText([])
        == [SumSign(Plus), Lit(x), ProductSign(Times), Lit(x)];
    assert Tree3(sum) == GroupSum(Leaf(x), sums) == GroupSum(Bin(Add, Leaf(x), TreeOf4(sums[0])), []);
    hide Text3, Tree3, SumText, GroupSum;
    SumAlone(sum);
  }

  lemma SumAlone(sum: Expr3)
    ensures var e := Expr0(Expr1(Expr2(sum, None), []), []);
            Text0(e) == Text3(sum) && Tree0(e) == Tree3(sum)
  {
    hide Text3, Tree3;
    var e := Expr0(Expr1(Expr2(sum, None), []), []);
    assert Text2(e.left.left) == Text3(sum) && Tree2(e.left.left) == Tree3(sum);
    assert AndText([]) == [] && OrText([]) == [];
    assert GroupAnd(Tree3(sum), []) == GroupOr(Tree3(sum), []) == Tree3(sum);
    assert Text1(e.left) == Text2(e.left.left) + [] && Tree1(e.left) == GroupAnd(Tree2(e.left.left), []);
    assert Text0(e) == Text1(e.left) + [] && Tree0(e) == GroupOr(Tree1(e.left), []);
  }

  /** Code that does not come from the grammar need not survive: without its parentheses a sum under a
      product prints as text that parses to another expression. */
  lemma UngroupedCodeIsLost(x: Term<string>)
    ensures var t := Bin(Mul, Bin(Add, Leaf(x), Leaf(x)), Leaf(x));
            var text := [Lit(x), SumSign(Plus), Lit(x), ProductSign(Times), Lit(x)];
            && Run(PrintAlgebra(), Code(t)) == Ok(text)
            && Parse(text).Some? && Code(Tree0(Parse(text).value)) != Code(t)
  {
    var t := Bin(Mul, Bin(Add, Leaf(x), Leaf(x)), Leaf(x));
    var text := [Lit(x), SumSign(Plus), Lit(x), ProductSign(Times), Lit(x)];
    UngroupedPrints(x);
    SumOfSquareText(x);
    ParsesBack0(SumOfSquare(x), []);
    hide Text0, Tree0, Parse0, SumOfSquare;
    assert text + [] == text;
    var u := Bin(Add, Leaf(x), Bin(Mul, Leaf(x), Leaf(x)));
    assert Code(Bin(Mul, Leaf(x), Leaf(x))) == [Value(x), Value(x), Binary(Mul)];
    assert Code(u) == [Value(x)] + [Value(x), Value(x), Binary(Mul)] + [Binary(Add)];
    assert Code(Bin(Add, Leaf(x), Leaf(x))) == [Value(x), Value(x), Binary(Add)];
    assert Code(t) == [Value(x), Value(x), Binary(Add)] + [Value(x)] + [Binary(Mul)];
    assert Code(u)[2] == Value(x) && Code(t)[2] == Binary(Add);
  }

  lemma UngroupedPrints(x: Term<string>)
    ensures Run(PrintAlgebra(), Code(Bin(Mul, Bin(Add, Leaf(x), Leaf(x)), Leaf(x))))
            == Ok([Lit(x), SumSign(Plus), Lit(x), ProductSign(Times), Lit(x)])
  {
    var alg, sum := PrintAlgebra(), Bin(Add, Leaf(x), Leaf(x));
    var t := Bin(Mul, sum, Leaf(x));
    var text := [Lit(x), SumSign(Plus), Lit(x)];
    assert Fold(alg, Leaf(x)) == Some([Lit(x)]);
    assert Infix(SumSign(Plus), [Lit(x)], [Lit(x)]) == text;
    assert Fold(alg, sum) == Some(text);
    assert Fold(alg, t) == Some(Infix(ProductSign(Times), text, [Lit(x)]));
    assert Need(Leaf(x)) == 1 && Need(sum) == 2 && Need(t) == 2;
    var full := [Lit(x), SumSign(Plus), Lit(x), ProductSign(Times), Lit(x)];
    assert Infix(ProductSign(Times), text, [Lit(x)]) == full;
    hide Fold, Code, Need;
    ExecCode(alg, t, []);
    assert Exec(alg, Code(t), []) == Ok([] + [full]);
    assert [] + [full] == [full];
  }
}
