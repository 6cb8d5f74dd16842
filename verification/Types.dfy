/** The values the authorization engine works on. Terms are generic in the type S of
    symbols: S is the string itself where symbols are resolved, and a table index
    where they are interned. */
module Types {
  type uint64 = x: int | 0 <= x < 0x1_0000_0000_0000_0000

  const MIN_INT64 := -0x8000_0000_0000_0000
  const MAX_INT64 := 0x7fff_ffff_ffff_ffff

  type int64 = x: int | MIN_INT64 <= x <= MAX_INT64

  type BlockId = uint64

  /** Facts, rules and checks of the authorizer itself carry this block id. */
  const AUTHORIZER: BlockId := 0xffff_ffff_ffff_ffff

  datatype Term<S(==)> =
    | Variable(v: S)
    | Integer(i: int64)
    | Str(s: S)
    | Date(d: uint64)
    | Bytes(bytes: seq<bv8>)
    | Bool(b: bool)
    | Set(elems: set<Term<S>>)

  datatype Predicate<S(==)> = Predicate(name: S, terms: seq<Term<S>>)

  type Fact<S(==)> = Predicate<S>

  datatype UnaryOp = Negate | Parens | Length

  datatype BinaryOp =
    | LessThan | LessOrEqual | GreaterThan | GreaterOrEqual | Equal
    | Contains | Prefix | Suffix | Regex
    | Add | Sub | Mul | Div | And | Or | Intersection | Union

  datatype Op<S(==)> = Value(term: Term<S>) | Unary(u: UnaryOp) | Binary(bin: BinaryOp)

  /** An expression in postfix form. */
  type Expression<S(==)> = seq<Op<S>>

  datatype Scope = AuthorityScope | PreviousScope | PublicKeyScope(keyIndex: uint64)

  datatype Rule<S(==)> = Rule(head: Predicate<S>, body: seq<Predicate<S>>,
                              expressions: seq<Expression<S>>, scopes: seq<Scope>)

  datatype CheckKind = CheckOne | CheckAll | CheckReject

  datatype Check<S(==)> = Check(queries: seq<Rule<S>>, kind: CheckKind)

  type Origin = set<BlockId>

  /** A fact with the ids of all the blocks that contributed to it. */
  datatype OriginFact<S(==)> = OriginFact(origin: Origin, fact: Fact<S>)

  type Bindings<S(==)> = map<S, Term<S>>
}
