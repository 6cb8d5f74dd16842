/** What the operators of datalog/expressions.go compute, on every operand, and what expressions written with them
    come to. */
module Operators {
  import opened Wrappers
  import opened Types
  import opened StackMachine
  import opened Expressions
  import opened Grammar

  /** The result is a truth value, and it is this one. */
  predicate Says(r: Option<DTerm>, holds: bool) { r == Some(Bool(holds)) }

  // ---- The operators ----

  /** The orderings compare two integers or two dates as numbers, and take nothing else. */
  lemma OrderingsMean(regexp: Regexp, l: DTerm, r: DTerm)
    ensures forall x: int64, y: int64 :: l == Integer(x) && r == Integer(y) ==> OrderedAs(regexp, l, r, x, y)
    ensures forall x: uint64, y: uint64 :: l == Date(x) && r == Date(y) ==> OrderedAs(regexp, l, r, x, y)
    ensures forall b :: b in {LessThan, LessOrEqual, GreaterThan, GreaterOrEqual} ==>
              (EvalBinary(regexp, b, l, r) == None <==> !(l.Integer? && r.Integer?) && !(l.Date? && r.Date?))
  {
  }

  /** Two operands are ordered as two numbers are. */
  predicate OrderedAs(regexp: Regexp, l: DTerm, r: DTerm, x: int, y: int) {
    && Says(EvalBinary(regexp, LessThan, l, r), x < y)
    && Says(EvalBinary(regexp, LessOrEqual, l, r), x <= y)
    && Says(EvalBinary(regexp, GreaterThan, l, r), y < x)
    && Says(EvalBinary(regexp, GreaterOrEqual, l, r), y <= x)
  }

  /** Whether two terms are made by the same constructor. */
  predicate SameKind(l: DTerm, r: DTerm) {
    || (l.Variable? && r.Variable?) || (l.Integer? && r.Integer?) || (l.Str? && r.Str?) || (l.Date? && r.Date?)
    || (l.Bytes? && r.Bytes?) || (l.Bool? && r.Bool?) || (l.Set? && r.Set?)
  }

  /** Equality errs exactly on different kinds of operands or variables; otherwise it is true exactly of the same
      value, which of sets means the same elements. */
  lemma EqualMeans(regexp: Regexp, l: DTerm, r: DTerm)
    ensures var v := EvalBinary(regexp, Equal, l, r);
            && (v == None <==> !SameKind(l, r) || l.Variable?)
            && (v != None ==> Says(v, l == r))
            && (v != None && l.Set? ==> Says(v, forall e :: e in l.elems <==> e in r.elems))
  {
  }

  /** Text operators take two strings: a prefix and a suffix are what leaves a rest, a substring has something on
      both sides, and a pattern is matched against the text on its left, erring only if it does not compile. */
  lemma TextsMean(regexp: Regexp, l: DTerm, r: DTerm)
    ensures forall b :: b in {Prefix, Suffix} ==> (EvalBinary(regexp, b, l, r) == None <==> !l.Str? || !r.Str?)
    ensures l.Str? && r.Str? ==>
              && Says(EvalBinary(regexp, Prefix, l, r), exists rest :: l.s == r.s + rest)
              && Says(EvalBinary(regexp, Suffix, l, r), exists rest :: l.s == rest + r.s)
              && Says(EvalBinary(regexp, Contains, l, r), exists a, b :: l.s == a + r.s + b)
              && (EvalBinary(regexp, Regex, l, r) == None <==> regexp(r.s, l.s) == None)
              && (forall found :: regexp(r.s, l.s) == Some(found) ==> Says(EvalBinary(regexp, Regex, l, r), found))
              && EvalBinary(regexp, Add, l, r) == Some(Str(l.s + r.s))
    ensures !l.Str? || !r.Str? ==> EvalBinary(regexp, Regex, l, r) == None
    ensures l.Str? != r.Str? ==> EvalBinary(regexp, Add, l, r) == None
  {
    if l.Str? && r.Str? {
      Parts(l.s, r.s);
    }
  }

  lemma Parts(text: string, part: string)
    ensures part <= text <==> exists rest :: text == part + rest
    ensures |part| <= |text| && text[|text| - |part|..] == part <==> exists rest :: text == rest + part
    ensures HasSubstring(text, part) <==> exists a, b :: text == a + part + b
  {
    if part <= text {
      assert text == part + text[|part|..];
    }
    if |part| <= |text| && text[|text| - |part|..] == part {
      assert text == text[..|text| - |part|] + part;
    }
    SubstringMeans(text, part);
  }

  lemma SubstringMeans(text: string, part: string)
    ensures HasSubstring(text, part) <==> exists a, b :: text == a + part + b
  {
    if HasSubstring(text, part) {
      var i :| 0 <= i <= |text| && PartAt(text, part, i);
      assert text == text[..i] + part + text[i + |part|..];
    }
    if a, b :| text == a + part + b {
      assert PartAt(text, part, |a|);
    }
  }

  /** On a set, Contains asks for an element, or for all those of another set; it errs on a variable, and on anything
      that is neither a string nor a set. */
  lemma ContainsMeans(regexp: Regexp, l: DTerm, r: DTerm)
    requires !l.Str?
    ensures var v := EvalBinary(regexp, Contains, l, r);
            && (v == None <==> !l.Set? || r.Variable?)
            && (v != None ==>
                  if r.Set? then Says(v, forall e :: e in r.elems ==> e in l.elems) else Says(v, r in l.elems))
  {
  }

  lemma StringContainsErrs(regexp: Regexp, l: DTerm, r: DTerm)
    requires l.Str? && !r.Str?
    ensures EvalBinary(regexp, Contains, l, r) == None
  {
  }

  /** Intersection and union take two sets, and give a set with these elements. */
  lemma SetsMean(regexp: Regexp, l: DTerm, r: DTerm)
    ensures var v, w := EvalBinary(regexp, Intersection, l, r), EvalBinary(regexp, Union, l, r);
            && (v == None <==> !l.Set? || !r.Set?)
            && (w == None <==> !l.Set? || !r.Set?)
            && (v != None ==> v.value.Set? && forall e :: e in v.value.elems <==> e in l.elems && e in r.elems)
            && (w != None ==> w.value.Set? && forall e :: e in w.value.elems <==> e in l.elems || e in r.elems)
  {
  }

  /** The logical operators follow their truth tables, and take truth values only. */
  lemma LogicMeans(regexp: Regexp, l: DTerm, r: DTerm)
    ensures forall b :: b in {And, Or} ==> (EvalBinary(regexp, b, l, r) == None <==> !l.Bool? || !r.Bool?)
    ensures l.Bool? && r.Bool? ==>
              && Says(EvalBinary(regexp, And, l, r), l == Bool(true) && r == Bool(true))
              && Says(EvalBinary(regexp, Or, l, r), l == Bool(true) || r == Bool(true))
    ensures EvalUnary(Negate, l) == if l == Bool(true) then Some(Bool(false))
                                    else if l == Bool(false) then Some(Bool(true)) else None
    ensures EvalUnary(Parens, l) == Some(l)
  {
  }

  /** The length of a string, a byte string or a set. */
  lemma LengthMeans(v: DTerm)
    ensures var n := if v.Str? then |v.s| else if v.Bytes? then |v.bytes| else if v.Set? then |v.elems| else 0;
            EvalUnary(Length, v) == if (v.Str? || v.Bytes? || v.Set?) && n <= MAX_INT64 then Some(Integer(n)) else None
  {
  }

  /** Arithmetic other than the concatenation of strings takes two integers only. */
  lemma ArithmeticTakesIntegers(regexp: Regexp, b: BinaryOp, l: DTerm, r: DTerm)
    requires b in {Add, Sub, Mul, Div} && !(l.Integer? && r.Integer?) && !(b == Add && l.Str? && r.Str?)
    ensures EvalBinary(regexp, b, l, r) == None
  {
  }

  // ---- The code of one operation ----

  /** What a leaf stands for: itself, or what its variable is bound to. */
  predicate StandsFor(m: Bindings<string>, t: DTerm, x: DTerm) {
    if t.Variable? then t.v in m && m[t.v] == x else t == x
  }

  /** Evaluating two values and a binary operator gives v exactly when both stand for something to which the
      operator gives v. */
  lemma BinaryCode(regexp: Regexp, m: Bindings<string>, l: DTerm, b: BinaryOp, r: DTerm, v: DTerm)
    ensures Run(EvalAlgebra(regexp, m), [Value(l), Value(r), Binary(b)]) == Ok(v) <==>
              exists x, y :: StandsFor(m, l, x) && StandsFor(m, r, y) && EvalBinary(regexp, b, x, y) == Some(v)
  {
    var alg, t := EvalAlgebra(regexp, m), Bin(b, Leaf(l), Leaf(r));
    assert Code(t) == [Value(l), Value(r), Binary(b)];
    LeafMeans(regexp, m, l);
    LeafMeans(regexp, m, r);
    RunCode(alg, t);
    assert Need(t) == 2;
    hide Run, Code, StandsFor, EvalLeaf;
  }

  lemma LeafMeans(regexp: Regexp, m: Bindings<string>, t: DTerm)
    ensures forall x :: Fold(EvalAlgebra(regexp, m), Leaf(t)) == Some(x) <==> StandsFor(m, t, x)
  {
  }

  lemma UnaryCode(regexp: Regexp, m: Bindings<string>, u: UnaryOp, t: DTerm, v: DTerm)
    ensures Run(EvalAlgebra(regexp, m), [Value(t), Unary(u)]) == Ok(v) <==>
              exists x :: StandsFor(m, t, x) && EvalUnary(u, x) == Some(v)
  {
    var alg, tree := EvalAlgebra(regexp, m), Un(u, Leaf(t));
    assert Code(tree) == [Value(t), Unary(u)];
    LeafMeans(regexp, m, t);
    RunCode(alg, tree);
    assert Need(tree) == 1;
    hide Run, Code, StandsFor, EvalLeaf;
  }

  /** In particular a comparison of two integers. */
  method CompareIntegers(regexp: Regexp, x: int64, y: int64) returns (less: bool, greater: bool)
    ensures (less <==> x < y) && (greater <==> x > y)
  {
    var l, r := Integer(x), Integer(y);
    var a := Evaluate(regexp, [Value(l), Value(r), Binary(LessThan)], map[]);
    var b := Evaluate(regexp, [Value(l), Value(r), Binary(GreaterThan)], map[]);
    OrderingsMean(regexp, l, r);
    BinaryCode(regexp, map[], l, LessThan, r, Bool(x < y));
    BinaryCode(regexp, map[], l, GreaterThan, r, Bool(y < x));
    hide Run, EvalBinary, EvalAlgebra;
    assert StandsFor(map[], l, l) && StandsFor(map[], r, r);
    less, greater := a == Ok(Bool(true)), b == Ok(Bool(true));
  }

  // ---- Expressions as they are written ----

  /** A literal at each level of the grammar. */
  function Atom6(t: DTerm): Expr6 { Expr6(Literal(t), []) }

  function Atom5(t: DTerm): Expr5 { Expr5(false, Atom6(t)) }

  function Atom4(t: DTerm): Expr4 { Expr4(Atom5(t), []) }

  function Atom3(t: DTerm): Expr3 { Expr3(Atom4(t), []) }

  function Atom0(t: DTerm): Expr0 { Expr0(Expr1(Expr2(Atom3(t), None), []), []) }

  /** What a tree comes to without bindings. */
  function Worth(regexp: Regexp, t: DTree): Option<DTerm> { Fold(EvalAlgebra(regexp, map[]), t) }

  // Groups of one and two operands.

  lemma OrOnce(acc: DTree, r: Expr1)
    ensures GroupOr(acc, []) == acc && GroupOr(acc, [r]) == Bin(Or, acc, Tree1(r))
  {
    hide Tree1;
    assert [r][1..] == [] && GroupOr(Bin(Or, acc, Tree1(r)), []) == Bin(Or, acc, Tree1(r));
  }

  lemma AndOnce(acc: DTree, r: Expr2)
    ensures GroupAnd(acc, []) == acc && GroupAnd(acc, [r]) == Bin(And, acc, Tree2(r))
  {
    hide Tree2;
    assert [r][1..] == [] && GroupAnd(Bin(And, acc, Tree2(r)), []) == Bin(And, acc, Tree2(r));
  }

  lemma SumOnce(acc: DTree, r: OpExpr4)
    ensures GroupSum(acc, []) == acc && GroupSum(acc, [r]) == Bin(SumCode(r.op), acc, Tree4(r.expr))
  {
    hide Tree4, SumCode;
    var next := Bin(SumCode(r.op), acc, TreeOf4(r));
    assert [r][1..] == [] && GroupSum(next, []) == next;
  }

  lemma SumTwice(acc: DTree, q: OpExpr4, r: OpExpr4)
    ensures GroupSum(acc, [q, r]) == Bin(SumCode(r.op), Bin(SumCode(q.op), acc, Tree4(q.expr)), Tree4(r.expr))
  {
    hide Tree4, SumCode;
    assert [q, r][1..] == [r];
    SumOnce(Bin(SumCode(q.op), acc, TreeOf4(q)), r);
  }

  lemma ProductOnce(acc: DTree, r: OpExpr5)
    ensures GroupProduct(acc, []) == acc && GroupProduct(acc, [r]) == Bin(ProductCode(r.op), acc, Tree5(r.expr))
  {
    hide Tree5, ProductCode;
    var next := Bin(ProductCode(r.op), acc, TreeOf5(r));
    assert [r][1..] == [] && GroupProduct(next, []) == next;
  }

  lemma ProductTwice(acc: DTree, q: OpExpr5, r: OpExpr5)
    ensures GroupProduct(acc, [q, r])
            == Bin(ProductCode(r.op), Bin(ProductCode(q.op), acc, Tree5(q.expr)), Tree5(r.expr))
  {
    hide Tree5, ProductCode;
    assert [q, r][1..] == [r];
    ProductOnce(Bin(ProductCode(q.op), acc, TreeOf5(q)), r);
  }

  lemma CallOnce(acc: DTree, call: OpExpr7)
    ensures GroupCalls(acc, []) == acc && GroupCalls(acc, [call]) == CallTree(acc, call)
  {
    hide CallTree;
    assert [call][1..] == [] && GroupCalls(CallTree(acc, call), []) == CallTree(acc, call);
  }

  lemma Atoms(t: DTerm)
    ensures Tree6(Atom6(t)) == Leaf(t) && Tree5(Atom5(t)) == Leaf(t) && Tree4(Atom4(t)) == Leaf(t)
    ensures Tree3(Atom3(t)) == Leaf(t) && Tree2(Expr2(Atom3(t), None)) == Leaf(t)
    ensures Tree1(Expr1(Expr2(Atom3(t), None), [])) == Leaf(t) && Tree0(Atom0(t)) == Leaf(t)
  {
    assert Tree6(Atom6(t)) == Leaf(t);
    assert Tree5(Atom5(t)) == Leaf(t);
    assert Tree4(Atom4(t)) == Leaf(t);
    assert Tree3(Atom3(t)) == Leaf(t);
    assert Tree2(Expr2(Atom3(t), None)) == Leaf(t);
    assert Tree1(Expr1(Expr2(Atom3(t), None), [])) == Leaf(t);
  }

  lemma WorthOf(regexp: Regexp)
    ensures forall t: DTerm :: !t.Variable? ==> Worth(regexp, Leaf(t)) == Some(t)
    ensures forall u, t :: Worth(regexp, t) != None ==>
              Worth(regexp, Un(u, t)) == EvalUnary(u, Worth(regexp, t).value)
    ensures forall b, s, t :: Worth(regexp, s) != None && Worth(regexp, t) != None ==>
              Worth(regexp, Bin(b, s, t)) == EvalBinary(regexp, b, Worth(regexp, s).value, Worth(regexp, t).value)
    ensures forall b, s, t :: Worth(regexp, s) == None ==> Worth(regexp, Bin(b, s, t)) == None
  {
    hide EvalUnary, EvalBinary;
  }

  /** Written comparisons of integers are those of the numbers. */
  lemma WrittenComparisons(regexp: Regexp, x: int64, y: int64)
    ensures forall c :: Says(Worth(regexp, Tree2(Expr2(Atom3(Integer(x)), Some(OpExpr3(c, Atom3(Integer(y))))))),
                             match c
                             case Lt => x < y
                             case Le => x <= y
                             case Gt => x > y
                             case Ge => x >= y
                             case Same => x == y)
  {
    var l, r := Integer(x), Integer(y);
    WorthOf(regexp);
    Atoms(l);
    Atoms(r);
    OrderingsMean(regexp, l, r);
    EqualMeans(regexp, l, r);
    hide EvalBinary, Worth, Tree3;
    forall c
      ensures Tree2(Expr2(Atom3(l), Some(OpExpr3(c, Atom3(r))))) == Bin(CompareCode(c), Leaf(l), Leaf(r))
    {
    }
  }

  /** Differences group to the left, and so do quotients: the second operand is taken away, or divided by, first. */
  lemma WrittenSums(regexp: Regexp, x: int64, y: int64, z: int64)
    ensures var d := Worth(regexp, Tree3(Expr3(Atom4(Integer(x)), [OpExpr4(Minus, Atom4(Integer(y))),
                                                                  OpExpr4(Minus, Atom4(Integer(z)))])));
            d == if MIN_INT64 <= x - y <= MAX_INT64 && MIN_INT64 <= x - y - z <= MAX_INT64
                 then Some(Integer(x - y - z)) else None
    ensures var s := Worth(regexp, Tree3(Expr3(Atom4(Integer(x)), [OpExpr4(Plus, Atom4(Integer(y)))])));
            s == if MIN_INT64 <= x + y <= MAX_INT64 then Some(Integer(x + y)) else None
  {
    WorthOf(regexp);
    Atoms(Integer(x));
    Atoms(Integer(y));
    Atoms(Integer(z));
    hide Worth, Tree4;
    var l, r := OpExpr4(Minus, Atom4(Integer(y))), OpExpr4(Minus, Atom4(Integer(z)));
    var p := OpExpr4(Plus, Atom4(Integer(y)));
    SumTwice(Leaf(Integer(x)), l, r);
    SumOnce(Leaf(Integer(x)), p);
  }

  lemma WrittenProducts(regexp: Regexp, x: int64, y: int64, z: int64)
    ensures var p := Worth(regexp, Tree4(Expr4(Atom5(Integer(x)), [OpExpr5(Over, Atom5(Integer(y))),
                                                                  OpExpr5(Times, Atom5(Integer(z)))])));
            p == if y == 0 then None else EvalBinary(regexp, Mul, Integer(Divide(x, y)), Integer(z))
  {
    WorthOf(regexp);
    Atoms(Integer(x));
    Atoms(Integer(y));
    Atoms(Integer(z));
    hide Worth, Tree5, Divide;
    ProductTwice(Leaf(Integer(x)), OpExpr5(Over, Atom5(Integer(y))), OpExpr5(Times, Atom5(Integer(z))));
  }

  /** Method calls on strings. */
  lemma WrittenCalls(regexp: Regexp, text: string, part: string)
    ensures Says(Worth(regexp, Tree6(Calling(Str(text), StartsWith, Str(part)))), exists rest :: text == part + rest)
    ensures Says(Worth(regexp, Tree6(Calling(Str(text), EndsWith, Str(part)))), exists rest :: text == rest + part)
    ensures Says(Worth(regexp, Tree6(Calling(Str(text), ContainsCall, Str(part)))), exists a, b :: text == a + part + b)
    ensures forall found :: regexp(part, text) == Some(found) ==>
              Says(Worth(regexp, Tree6(Calling(Str(text), Matches, Str(part)))), found)
  {
    TextsMean(regexp, Str(text), Str(part));
    forall op
      ensures Worth(regexp, Tree6(Calling(Str(text), op, Str(part))))
              == EvalBinary(regexp, MethodCode(op), Str(text), Str(part))
    {
      CallWorth(regexp, Str(text), op, Str(part));
    }
    hide EvalBinary, Tree6;
  }

  function Calling(l: DTerm, op: MethodOp, r: DTerm): Expr6 { Expr6(Literal(l), [Call(op, Atom0(r))]) }

  lemma CallWorth(regexp: Regexp, l: DTerm, op: MethodOp, r: DTerm)
    requires !l.Variable? && !r.Variable?
    ensures Worth(regexp, Tree6(Calling(l, op, r))) == EvalBinary(regexp, MethodCode(op), l, r)
  {
    var call := Call(op, Atom0(r));
    WorthOf(regexp);
    Atoms(l);
    Atoms(r);
    hide EvalBinary, Worth, Tree0;
    CallOnce(Leaf(l), call);
  }

  /** Method calls on sets. */
  lemma WrittenSetCalls(regexp: Regexp, a: set<DTerm>, b: set<DTerm>)
    ensures var u, i := Worth(regexp, Tree6(Calling(Set(a), UnionCall, Set(b)))),
                        Worth(regexp, Tree6(Calling(Set(a), IntersectionCall, Set(b))));
            && u.Some? && u.value.Set? && (forall e :: e in u.value.elems <==> e in a || e in b)
            && i.Some? && i.value.Set? && (forall e :: e in i.value.elems <==> e in a && e in b)
  {
    SetsMean(regexp, Set(a), Set(b));
    CallWorth(regexp, Set(a), UnionCall, Set(b));
    CallWorth(regexp, Set(a), IntersectionCall, Set(b));
    hide EvalBinary, Tree6;
  }

  /** `||` and `&&` between truth values, and `!` before one. */
  lemma WrittenLogic(regexp: Regexp, x: bool, y: bool)
    ensures Says(Worth(regexp, Tree0(Expr0(Truth1(x), [Truth1(y)]))), x || y)
    ensures Says(Worth(regexp, Tree1(Expr1(Expr2(Atom3(Bool(x)), None), [Expr2(Atom3(Bool(y)), None)]))), x && y)
    ensures Says(Worth(regexp, Tree5(Expr5(true, Atom6(Bool(x))))), !x)
  {
    var l, r := Bool(x), Bool(y);
    WorthOf(regexp);
    LogicMeans(regexp, l, r);
    LogicTrees(x, y);
    hide Worth, Tree0, Tree1, Tree5, EvalBinary, EvalUnary;
  }

  lemma LogicTrees(x: bool, y: bool)
    ensures Tree0(Expr0(Truth1(x), [Truth1(y)])) == Bin(Or, Leaf(Bool(x)), Leaf(Bool(y)))
    ensures Tree1(Expr1(Expr2(Atom3(Bool(x)), None), [Expr2(Atom3(Bool(y)), None)]))
            == Bin(And, Leaf(Bool(x)), Leaf(Bool(y)))
    ensures Tree5(Expr5(true, Atom6(Bool(x)))) == Un(Negate, Leaf(Bool(x)))
  {
    Atoms(Bool(x));
    Atoms(Bool(y));
    hide Tree2, Tree6, GroupOr, GroupAnd, Atom3, Atom6;
    OrOnce(Leaf(Bool(x)), Truth1(y));
    AndOnce(Leaf(Bool(x)), Expr2(Atom3(Bool(y)), None));
  }

  function Truth1(x: bool): Expr1 { Expr1(Expr2(Atom3(Bool(x)), None), []) }
}
