/** The fragment of the SQL syntax tree the rewrite passes look at.
    Every column reference is qualified, as the PostgreSQL analyser leaves it. */
module SqlAst {
  import opened Wrappers
  import opened SqlValues

  datatype Expr =
    | Lit(v: Value)
    | Col(qual: string, name: string)
    | Bare(name: string)                       // the alias of a table function, read as a value
    | Cmp(op: CmpOp, left: Expr, right: Expr)
    | And(left: Expr, right: Expr)
    | Or(left: Expr, right: Expr)
    | Not(e: Expr)
    | Nested(e: Expr)                          // a written pair of parentheses
    | Case(cond: Expr, thn: Expr, els: Expr)
    | Call(fn: string, args: seq<Expr>)        // casts, operators and scalar functions
    | CountStar
    | Agg(agg: AggFn, arg: Expr)
    | Tuple(elems: seq<Expr>)
    | Scalar(q: Query)
    | Exists(q: Query, negated: bool)
    | InQuery(e: Expr, q: Query, negated: bool)
    | AnyOf(e: Expr, arr: Expr)                // e = ANY(arr)
    | Index(arr: Expr, idx: Expr)

  /** `site` labels the place of a LIMIT or OFFSET in the statement; see `World.pick`. */
  datatype Query = Query(body: Body, limit: Option<nat>, offset: nat, site: nat)

  datatype Body =
    | Select(proj: seq<Item>, from: seq<FromItem>, selection: Option<Expr>,
             groupBy: seq<Expr>, having: Option<Expr>, distinct: bool)
    | Union(l: Body, r: Body, all: bool)
    | Paren(q: Query)

  datatype Item = Item(e: Expr, alias: Option<string>) | Wildcard

  /** How a FROM item follows the ones before it; a comma, and the first item, join ON true. */
  datatype JoinKind = Comma | Inner | Left

  datatype FromItem = FromItem(kind: JoinKind, factor: Factor, on: Expr)

  datatype Factor =
    | Table(schema: Option<string>, name: string, alias: Option<string>)
    | Derived(q: Query, given: string, lateral: bool)
    | Series(lo: Expr, hi: Expr, given: string) // generate_series(lo, hi) alias

  const TrueLit := Lit(TRUE)

  /** A cast is a call named by `::` and the type. */
  predicate IsCast(fn: string) {
    |fn| >= 2 && fn[..2] == "::"
  }

  /** The name a FROM item answers to. */
  function FactorName(f: Factor): string {
    match f
    case Table(_, name, alias) => if alias.Some? then alias.value else name
    case Derived(_, given, _) => given
    case Series(_, _, given) => given
  }

  /** The names a FROM clause binds. */
  function Names(from: seq<FromItem>): set<string> {
    set k | 0 <= k < |from| :: FactorName(from[k].factor)
  }

  /** The output column an expression without an alias gets. */
  function OutName(e: Expr): string {
    if e.Col? || e.Bare? then e.name else "?column?"
  }

  function ItemName(it: Item): string
    requires it.Item?
  {
    if it.alias.Some? then it.alias.value else OutName(it.e)
  }

  /** Whether an expression computes an aggregate of its own SELECT. */
  predicate HasAgg(e: Expr) {
    match e
    case Lit(_) => false
    case Col(_, _) => false
    case Bare(_) => false
    case Cmp(_, l, r) => HasAgg(l) || HasAgg(r)
    case And(l, r) => HasAgg(l) || HasAgg(r)
    case Or(l, r) => HasAgg(l) || HasAgg(r)
    case Not(x) => HasAgg(x)
    case Nested(x) => HasAgg(x)
    case Case(c, t, f) => HasAgg(c) || HasAgg(t) || HasAgg(f)
    case Call(_, args) => AnyHasAgg(args)
    case CountStar => true
    case Agg(_, _) => true
    case Tuple(es) => AnyHasAgg(es)
    case Scalar(_) => false
    case Exists(_, _) => false
    case InQuery(x, _, _) => HasAgg(x)
    case AnyOf(x, a) => HasAgg(x) || HasAgg(a)
    case Index(a, i) => HasAgg(a) || HasAgg(i)
  }

  predicate AnyHasAgg(es: seq<Expr>) {
    es != [] && (HasAgg(es[0]) || AnyHasAgg(es[1..]))
  }

  predicate ItemsHaveAgg(items: seq<Item>) {
    items != [] && ((items[0].Item? && HasAgg(items[0].e)) || ItemsHaveAgg(items[1..]))
  }

  /** A SELECT that aggregates returns one row a group; without GROUP BY there is one group. */
  predicate Aggregated(b: Body)
    requires b.Select?
  {
    b.groupBy != [] || b.having.Some? || ItemsHaveAgg(b.proj)
  }
}
