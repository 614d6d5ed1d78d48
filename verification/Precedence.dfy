/** Every pass hands its result on as text, which the next one parses again. An operator writes its
    operands without parentheses of its own, so the text means the same tree only when each looser
    operand stands in a written pair. */
module Precedence {
  import opened Wrappers
  import opened SqlValues
  import opened SqlAst
  import opened SqlEval

  datatype Tok =
    | Unit(e: Expr)                          // a literal, name, call, subquery: read as one piece
    | TOr | TAnd | TNot
    | TCmp(op: CmpOp)
    | TAny(arr: Expr)                        // = ANY(arr)
    | TIn(q: Query, negated: bool)           // [NOT] IN (q)
    | Open | Close

  /** How tightly an expression's outermost operator binds, section 4.1.6 of the PostgreSQL
      documentation. */
  function Level(e: Expr): nat {
    match e
    case Or(_, _) => 0
    case And(_, _) => 1
    case Not(_) => 2
    case Cmp(_, _, _) => 3
    case AnyOf(_, _) => 3
    case InQuery(_, _, _) => 4
    case _ => 5
  }

  function Render(e: Expr): (ts: seq<Tok>)
    ensures ts != []
  {
    match e
    case Or(l, r) => Render(l) + [TOr] + Render(r)
    case And(l, r) => Render(l) + [TAnd] + Render(r)
    case Not(x) => [TNot] + Render(x)
    case Cmp(op, l, r) => Render(l) + [TCmp(op)] + Render(r)
    case AnyOf(x, arr) => Render(x) + [TAny(arr)]
    case InQuery(x, q, negated) => Render(x) + [TIn(q, negated)]
    case Nested(x) => [Open] + Render(x) + [Close]
    case _ => [Unit(e)]
  }

  type Parsed = Option<(Expr, seq<Tok>)>

  function ParseOr(ts: seq<Tok>): (r: Parsed)
    ensures r.Some? ==> |r.value.1| < |ts|
    decreases |ts|, 5
  {
    match ParseAnd(ts)
    case None => None
    case Some(a) => OrRest(a.0, a.1)
  }

  function OrRest(acc: Expr, ts: seq<Tok>): (r: Parsed)
    ensures r.Some? ==> |r.value.1| <= |ts|
    decreases |ts|, 6
  {
    if ts == [] || !ts[0].TOr? then Some((acc, ts))
    else
      match ParseAnd(ts[1..])
      case None => None
      case Some(a) => OrRest(Or(acc, a.0), a.1)
  }

  function ParseAnd(ts: seq<Tok>): (r: Parsed)
    ensures r.Some? ==> |r.value.1| < |ts|
    decreases |ts|, 4
  {
    match ParseNot(ts)
    case None => None
    case Some(a) => AndRest(a.0, a.1)
  }

  function AndRest(acc: Expr, ts: seq<Tok>): (r: Parsed)
    ensures r.Some? ==> |r.value.1| <= |ts|
    decreases |ts|, 4
  {
    if ts == [] || !ts[0].TAnd? then Some((acc, ts))
    else
      match ParseNot(ts[1..])
      case None => None
      case Some(a) => AndRest(And(acc, a.0), a.1)
  }

  function ParseNot(ts: seq<Tok>): (r: Parsed)
    ensures r.Some? ==> |r.value.1| < |ts|
    decreases |ts|, 3
  {
    if ts != [] && ts[0].TNot? then
      match ParseNot(ts[1..])
      case None => None
      case Some(a) => Some((Not(a.0), a.1))
    else ParseCmp(ts)
  }

  /** Comparisons do not associate: at most one. */
  function ParseCmp(ts: seq<Tok>): (r: Parsed)
    ensures r.Some? ==> |r.value.1| < |ts|
    decreases |ts|, 2
  {
    match ParseIn(ts)
    case None => None
    case Some((a, rest)) =>
      if rest != [] && rest[0].TCmp? then
        match ParseIn(rest[1..])
        case None => None
        case Some((b, more)) => Some((Cmp(rest[0].op, a, b), more))
      else if rest != [] && rest[0].TAny? then Some((AnyOf(a, rest[0].arr), rest[1..]))
      else Some((a, rest))
  }

  function ParseIn(ts: seq<Tok>): (r: Parsed)
    ensures r.Some? ==> |r.value.1| < |ts|
    decreases |ts|, 1
  {
    match ParsePrimary(ts)
    case None => None
    case Some((a, rest)) =>
      if rest != [] && rest[0].TIn? then Some((InQuery(a, rest[0].q, rest[0].negated), rest[1..])) else Some((a, rest))
  }

  function ParsePrimary(ts: seq<Tok>): (r: Parsed)
    ensures r.Some? ==> |r.value.1| < |ts|
    decreases |ts|, 0
  {
    if ts == [] then None
    else if ts[0].Unit? then Some((ts[0].e, ts[1..]))
    else if ts[0].Open? then
      match ParseOr(ts[1..])
      case None => None
      case Some((e, rest)) => if rest != [] && rest[0].Close? then Some((Nested(e), rest[1..])) else None
    else None
  }

  function Parse(ts: seq<Tok>): Option<Expr> {
    match ParseOr(ts)
    case Some((e, rest)) => if rest == [] then Some(e) else None
    case None => None
  }

  // --- the class that reads back -------------------------------------------------------------

  /** Each operand, bound as tightly as `level` says, binds tightly enough for its place. */
  predicate Fits(level: Expr -> nat, e: Expr) {
    match e
    case And(l, r) => level(l) >= 1 && level(r) >= 1
    case Not(x) => level(x) >= 2
    case Cmp(_, l, r) => level(l) >= 4 && level(r) >= 4
    case AnyOf(x, _) => level(x) >= 4
    case InQuery(x, _, _) => level(x) >= 5
    case _ => true
  }

  predicate OperandsFit(e: Expr) {
    Fits(Level, e)
  }

  predicate Wrapped(e: Expr) {
    && OperandsFit(e)
    && match e
       case Or(l, r) => Wrapped(l) && Wrapped(r)
       case And(l, r) => Wrapped(l) && Wrapped(r)
       case Not(x) => Wrapped(x)
       case Cmp(_, l, r) => Wrapped(l) && Wrapped(r)
       case AnyOf(x, _) => Wrapped(x)
       case InQuery(x, _, _) => Wrapped(x)
       case Nested(x) => Wrapped(x)
       case _ => true
  }

  /** The same expression with its AND and OR chains associated to the left, as a parser does. */
  function Leftward(e: Expr): Expr
    decreases e, 1
  {
    match e
    case Or(l, r) => JoinOr(Leftward(l), r)
    case And(l, r) => JoinAnd(Leftward(l), r)
    case Not(x) => Not(Leftward(x))
    case Cmp(op, l, r) => Cmp(op, Leftward(l), Leftward(r))
    case AnyOf(x, arr) => AnyOf(Leftward(x), arr)
    case InQuery(x, q, negated) => InQuery(Leftward(x), q, negated)
    case Nested(x) => Nested(Leftward(x))
    case _ => e
  }

  function JoinOr(acc: Expr, r: Expr): Expr
    decreases r, 2
  {
    if r.Or? then JoinOr(JoinOr(acc, r.left), r.right) else Or(acc, Leftward(r))
  }

  function JoinAnd(acc: Expr, r: Expr): Expr
    decreases r, 2
  {
    if r.And? then JoinAnd(JoinAnd(acc, r.left), r.right) else And(acc, Leftward(r))
  }

  // --- writing and reading back --------------------------------------------------------------

  predicate CompareNext(ts: seq<Tok>) {
    ts != [] && (ts[0].TCmp? || ts[0].TAny? || ts[0].TIn?)
  }

  predicate AndNext(ts: seq<Tok>) {
    ts != [] && ts[0].TAnd?
  }

  lemma {:induction false} ReadOr(e: Expr, rest: seq<Tok>)
    requires Wrapped(e) && !CompareNext(rest) && !AndNext(rest)
    ensures ParseOr(Render(e) + rest) == OrRest(Leftward(e), rest)
    decreases e, 8
  {
    if e.Or? {
      var more := [TOr] + Render(e.right) + rest;
      ReadOr(e.left, more);
      ReadOrRest(Leftward(e.left), e.right, rest);
      assert Render(e) + rest == Render(e.left) + more;
    } else {
      ReadAnd(e, rest);
    }
  }

  lemma {:induction false} ReadOrRest(acc: Expr, r: Expr, rest: seq<Tok>)
    requires Wrapped(r) && !CompareNext(rest) && !AndNext(rest)
    ensures OrRest(acc, [TOr] + Render(r) + rest) == OrRest(JoinOr(acc, r), rest)
    decreases r, 8
  {
    var ts := [TOr] + Render(r) + rest;
    if r.Or? {
      var more := [TOr] + Render(r.right) + rest;
      assert ts == [TOr] + Render(r.left) + more;
      ReadOrRest(acc, r.left, more);
      ReadOrRest(JoinOr(acc, r.left), r.right, rest);
    } else {
      assert ts[1..] == Render(r) + rest;
      ReadAnd(r, rest);
    }
  }

  lemma {:induction false} ReadAnd(e: Expr, rest: seq<Tok>)
    requires Wrapped(e) && !e.Or? && !CompareNext(rest)
    ensures ParseAnd(Render(e) + rest) == AndRest(Leftward(e), rest)
    decreases e, 7
  {
    if e.And? {
      var more := [TAnd] + Render(e.right) + rest;
      ReadAnd(e.left, more);
      ReadAndRest(Leftward(e.left), e.right, rest);
      assert Render(e) + rest == Render(e.left) + more;
    } else {
      ReadNot(e, rest);
    }
  }

  lemma {:induction false} ReadAndRest(acc: Expr, r: Expr, rest: seq<Tok>)
    requires Wrapped(r) && !r.Or? && !CompareNext(rest)
    ensures AndRest(acc, [TAnd] + Render(r) + rest) == AndRest(JoinAnd(acc, r), rest)
    decreases r, 7
  {
    var ts := [TAnd] + Render(r) + rest;
    if r.And? {
      var more := [TAnd] + Render(r.right) + rest;
      assert ts == [TAnd] + Render(r.left) + more;
      ReadAndRest(acc, r.left, more);
      ReadAndRest(JoinAnd(acc, r.left), r.right, rest);
    } else {
      assert ts[1..] == Render(r) + rest;
      ReadNot(r, rest);
    }
  }

  lemma {:induction false} ReadNot(e: Expr, rest: seq<Tok>)
    requires Wrapped(e) && Level(e) >= 2 && !CompareNext(rest)
    ensures ParseNot(Render(e) + rest) == Some((Leftward(e), rest))
    decreases e, 6
  {
    if e.Not? {
      assert (Render(e) + rest)[1..] == Render(e.e) + rest;
      ReadNot(e.e, rest);
    } else {
      ReadCmp(e, rest);
      StartsTight(e);
    }
  }

  /** Nothing tighter than NOT begins with one. */
  lemma {:induction false} StartsTight(e: Expr)
    requires Wrapped(e) && Level(e) >= 3
    ensures Render(e)[0].Unit? || Render(e)[0].Open?
    decreases e
  {
    match e
    case Cmp(_, l, _) => StartsTight(l);
    case AnyOf(x, _) => StartsTight(x);
    case InQuery(x, _, _) => StartsTight(x);
    case _ =>
  }

  lemma {:induction false} ReadCmp(e: Expr, rest: seq<Tok>)
    requires Wrapped(e) && Level(e) >= 3 && !CompareNext(rest)
    ensures ParseCmp(Render(e) + rest) == Some((Leftward(e), rest))
    decreases e, 5
  {
    match e
    case Cmp(op, l, r) =>
      var more := [TCmp(op)] + Render(r) + rest;
      assert Render(e) + rest == Render(l) + more && more[1..] == Render(r) + rest;
      ReadIn(l, more);
      ReadIn(r, rest);
    case AnyOf(_, _) => ReadAny(e, rest);
    case _ => ReadIn(e, rest);
  }

  lemma {:induction false} ReadAny(e: Expr, rest: seq<Tok>)
    requires Wrapped(e) && e.AnyOf?
    ensures ParseCmp(Render(e) + rest) == Some((Leftward(e), rest))
    decreases e, 4
  {
    var more := [TAny(e.arr)] + rest;
    assert Render(e) + rest == Render(e.e) + more && more[1..] == rest;
    ReadIn(e.e, more);
  }

  lemma {:induction false} ReadIn(e: Expr, rest: seq<Tok>)
    requires Wrapped(e) && Level(e) >= 4 && !(rest != [] && rest[0].TIn?)
    ensures ParseIn(Render(e) + rest) == Some((Leftward(e), rest))
    decreases e, 4
  {
    if e.InQuery? {
      ReadMembership(e, rest);
    } else {
      ReadPrimary(e, rest);
    }
  }

  lemma {:induction false} ReadMembership(e: Expr, rest: seq<Tok>)
    requires Wrapped(e) && e.InQuery? && !(rest != [] && rest[0].TIn?)
    ensures ParseIn(Render(e) + rest) == Some((Leftward(e), rest))
    decreases e, 3
  {
    var more := [TIn(e.q, e.negated)] + rest;
    assert Render(e) + rest == Render(e.e) + more && more[1..] == rest;
    ReadPrimary(e.e, more);
  }

  lemma {:induction false} ReadPrimary(e: Expr, rest: seq<Tok>)
    requires Wrapped(e) && Level(e) == 5
    ensures ParsePrimary(Render(e) + rest) == Some((Leftward(e), rest))
    decreases e, 3
  {
    if e.Nested? {
      var inner := [Close] + rest;
      assert (Render(e) + rest)[1..] == Render(e.e) + inner && inner[1..] == rest;
      ReadOr(e.e, inner);
    } else {
      assert Render(e) == [Unit(e)] && ([Unit(e)] + rest)[1..] == rest;
    }
  }

  // --- what a parser returns -----------------------------------------------------------------

  /** Pieces read as one carry no operator of their own. */
  predicate WholeUnits(ts: seq<Tok>) {
    forall i :: 0 <= i < |ts| && ts[i].Unit? ==> Level(ts[i].e) == 5 && !ts[i].e.Nested?
  }

  lemma {:induction false} RenderUnits(e: Expr)
    ensures WholeUnits(Render(e))
  {
    match e
    case Or(l, r) => RenderUnits(l); RenderUnits(r);
    case And(l, r) => RenderUnits(l); RenderUnits(r);
    case Not(x) => RenderUnits(x);
    case Cmp(_, l, r) => RenderUnits(l); RenderUnits(r);
    case AnyOf(x, _) => RenderUnits(x);
    case InQuery(x, _, _) => RenderUnits(x);
    case Nested(x) => RenderUnits(x);
    case _ =>
  }

  /** A tree read at some level fits there, and what is left is still to be read. */
  ghost predicate Reads(ts: seq<Tok>, r: Parsed, level: nat) {
    r.Some? ==> Wrapped(r.value.0) && Level(r.value.0) >= level && WholeUnits(r.value.1)
  }

  lemma {:induction false} ReadsOr(ts: seq<Tok>)
    requires WholeUnits(ts)
    ensures Reads(ts, ParseOr(ts), 0)
    decreases |ts|, 5
  {
    ReadsAnd(ts);
    var a := ParseAnd(ts);
    if a.Some? {
      ReadsOrRest(a.value.0, a.value.1);
    }
  }

  lemma {:induction false} ReadsOrRest(acc: Expr, ts: seq<Tok>)
    requires Wrapped(acc) && WholeUnits(ts)
    ensures Reads(ts, OrRest(acc, ts), 0)
    decreases |ts|, 6
  {
    if ts != [] && ts[0].TOr? {
      ReadsAnd(ts[1..]);
      var a := ParseAnd(ts[1..]);
      if a.Some? {
        ReadsOrRest(Or(acc, a.value.0), a.value.1);
      }
    }
  }

  lemma {:induction false} ReadsAnd(ts: seq<Tok>)
    requires WholeUnits(ts)
    ensures Reads(ts, ParseAnd(ts), 1)
    decreases |ts|, 4
  {
    ReadsNot(ts);
    var a := ParseNot(ts);
    if a.Some? {
      ReadsAndRest(a.value.0, a.value.1);
    }
  }

  lemma {:induction false} ReadsAndRest(acc: Expr, ts: seq<Tok>)
    requires Wrapped(acc) && Level(acc) >= 1 && WholeUnits(ts)
    ensures Reads(ts, AndRest(acc, ts), 1)
    decreases |ts|, 4
  {
    if ts != [] && ts[0].TAnd? {
      ReadsNot(ts[1..]);
      var a := ParseNot(ts[1..]);
      if a.Some? {
        ReadsAndRest(And(acc, a.value.0), a.value.1);
      }
    }
  }

  lemma {:induction false} ReadsNot(ts: seq<Tok>)
    requires WholeUnits(ts)
    ensures Reads(ts, ParseNot(ts), 2)
    decreases |ts|, 3
  {
    if ts != [] && ts[0].TNot? {
      ReadsNot(ts[1..]);
    } else {
      ReadsCmp(ts);
    }
  }

  lemma {:induction false} ReadsCmp(ts: seq<Tok>)
    requires WholeUnits(ts)
    ensures Reads(ts, ParseCmp(ts), 3)
    decreases |ts|, 2
  {
    ReadsIn(ts);
    var a := ParseIn(ts);
    if a.Some? && a.value.1 != [] && a.value.1[0].TCmp? {
      ReadsIn(a.value.1[1..]);
    }
  }

  lemma {:induction false} ReadsIn(ts: seq<Tok>)
    requires WholeUnits(ts)
    ensures Reads(ts, ParseIn(ts), 4)
    decreases |ts|, 1
  {
    ReadsPrimary(ts);
  }

  lemma {:induction false} ReadsPrimary(ts: seq<Tok>)
    requires WholeUnits(ts)
    ensures Reads(ts, ParsePrimary(ts), 5)
    decreases |ts|, 0
  {
    if ts != [] && ts[0].Open? {
      ReadsOr(ts[1..]);
    }
  }

  // --- reassociation -------------------------------------------------------------------------

  lemma {:induction false} LeftwardFits(e: Expr)
    ensures Level(Leftward(e)) == Level(e)
    ensures Wrapped(Leftward(e)) <==> Wrapped(e)
    decreases e, 1
  {
    match e
    case Or(l, r) => LeftwardFits(l); JoinOrFits(Leftward(l), r);
    case And(l, r) => LeftwardFits(l); JoinAndFits(Leftward(l), r);
    case Not(x) => LeftwardFits(x);
    case Cmp(_, l, r) => LeftwardFits(l); LeftwardFits(r);
    case AnyOf(x, _) => LeftwardFits(x);
    case InQuery(x, _, _) => LeftwardFits(x);
    case Nested(x) => LeftwardFits(x);
    case _ =>
  }

  lemma {:induction false} JoinOrFits(acc: Expr, r: Expr)
    ensures JoinOr(acc, r).Or?
    ensures Wrapped(JoinOr(acc, r)) <==> Wrapped(acc) && Wrapped(r)
    decreases r, 2
  {
    if r.Or? {
      JoinOrFits(acc, r.left);
      JoinOrFits(JoinOr(acc, r.left), r.right);
      assert Wrapped(r) <==> Wrapped(r.left) && Wrapped(r.right);
    } else {
      LeftwardFits(r);
      assert Wrapped(Or(acc, Leftward(r))) <==> Wrapped(acc) && Wrapped(Leftward(r));
    }
  }

  lemma {:induction false} JoinAndFits(acc: Expr, r: Expr)
    ensures JoinAnd(acc, r).And?
    ensures Wrapped(JoinAnd(acc, r)) <==> !acc.Or? && Wrapped(acc) && !r.Or? && Wrapped(r)
    decreases r, 2
  {
    if r.And? {
      JoinAndFits(acc, r.left);
      JoinAndFits(JoinAnd(acc, r.left), r.right);
      assert Wrapped(r) <==> !r.left.Or? && Wrapped(r.left) && !r.right.Or? && Wrapped(r.right);
    } else {
      LeftwardFits(r);
      assert Wrapped(And(acc, Leftward(r))) <==> !acc.Or? && Wrapped(acc) && !Leftward(r).Or? && Wrapped(Leftward(r));
      assert Leftward(r).Or? <==> Level(Leftward(r)) == 0;
    }
  }

  /** Written out and read again, an expression comes back - its chains associated to the left -
      exactly when each looser operand stands in parentheses. */
  lemma RoundTrip(e: Expr)
    ensures Parse(Render(e)) == Some(Leftward(e)) <==> Wrapped(e)
  {
    if Wrapped(e) {
      assert Render(e) + [] == Render(e);
      ReadOr(e, []);
    } else {
      RenderUnits(e);
      ReadsOr(Render(e));
      LeftwardFits(e);
    }
  }

  lemma OrAssociates(a: Value, b: Value, c: Value)
    ensures OrV(OrV(a, b), c) == OrV(a, OrV(b, c))
  {
  }

  /** Reading back never changes a value or a condition. */
  lemma {:induction false} LeftwardKeepsValue(w: World, e: Expr, s: Scope)
    ensures EvalE(w, Leftward(e), s) == EvalE(w, e, s)
    ensures EvalCond(w, Leftward(e), s) == EvalCond(w, e, s)
    decreases e, 1
  {
    match e
    case Or(l, r) => LeftwardKeepsValue(w, l, s); JoinOrValue(w, Leftward(l), r, s);
    case And(l, r) => LeftwardKeepsValue(w, l, s); JoinAndValue(w, Leftward(l), r, s);
    case _ => LeftwardKeepsOther(w, e, s);
  }

  lemma {:induction false} LeftwardKeepsOther(w: World, e: Expr, s: Scope)
    requires !e.Or? && !e.And?
    ensures EvalE(w, Leftward(e), s) == EvalE(w, e, s)
    ensures EvalCond(w, Leftward(e), s) == EvalCond(w, e, s)
    decreases e, 0
  {
    match e
    case Not(x) => LeftwardKeepsValue(w, x, s);
    case Cmp(_, l, r) => LeftwardKeepsValue(w, l, s); LeftwardKeepsValue(w, r, s);
    case AnyOf(x, _) => LeftwardKeepsValue(w, x, s);
    case InQuery(x, _, _) => LeftwardKeepsValue(w, x, s);
    case Nested(x) => LeftwardKeepsValue(w, x, s);
    case _ =>
  }

  lemma {:induction false} JoinOrValue(w: World, acc: Expr, r: Expr, s: Scope)
    ensures EvalE(w, JoinOr(acc, r), s) == EvalE(w, Or(acc, r), s)
    ensures EvalCond(w, JoinOr(acc, r), s) == EvalCond(w, Or(acc, r), s)
    decreases r, 2
  {
    if r.Or? {
      JoinOrValue(w, acc, r.left, s);
      JoinOrValue(w, JoinOr(acc, r.left), r.right, s);
      OrTwice(w, JoinOr(acc, r.left), acc, r, s);
    } else {
      LeftwardKeepsValue(w, r, s);
    }
  }

  lemma OrTwice(w: World, first: Expr, acc: Expr, r: Expr, s: Scope)
    requires r.Or?
    requires EvalE(w, first, s) == EvalE(w, Or(acc, r.left), s) && EvalCond(w, first, s) == EvalCond(w, Or(acc, r.left), s)
    ensures EvalE(w, Or(first, r.right), s) == EvalE(w, Or(acc, r), s)
    ensures EvalCond(w, Or(first, r.right), s) == EvalCond(w, Or(acc, r), s)
  {
    OrTwiceValue(w, first, acc, r, s);
    OrStep(w, acc, r.left, s);
    OrStep(w, acc, r, s);
    OrStep(w, r.left, r.right, s);
    OrStep(w, first, r.right, s);
  }

  lemma OrTwiceValue(w: World, first: Expr, acc: Expr, r: Expr, s: Scope)
    requires r.Or? && EvalE(w, first, s) == EvalE(w, Or(acc, r.left), s)
    ensures EvalE(w, Or(first, r.right), s) == EvalE(w, Or(acc, r), s)
  {
    var a, b, c := EvalE(w, acc, s), EvalE(w, r.left, s), EvalE(w, r.right, s);
    if a.Ok? && b.Ok? && c.Ok? {
      OrAssociates(a.value, b.value, c.value);
    }
  }

  lemma OrStep(w: World, l: Expr, r: Expr, s: Scope)
    ensures EvalCond(w, Or(l, r), s)
         == if EvalCond(w, l, s) == Ok(true) then Ok(true) else if EvalCond(w, l, s).Ok? then EvalCond(w, r, s) else Error
  {
  }

  lemma {:induction false} JoinAndValue(w: World, acc: Expr, r: Expr, s: Scope)
    ensures EvalE(w, JoinAnd(acc, r), s) == EvalE(w, And(acc, r), s)
    ensures EvalCond(w, JoinAnd(acc, r), s) == EvalCond(w, And(acc, r), s)
    decreases r, 2
  {
    if r.And? {
      JoinAndValue(w, acc, r.left, s);
      JoinAndValue(w, JoinAnd(acc, r.left), r.right, s);
      AndTwice(w, JoinAnd(acc, r.left), acc, r, s);
    } else {
      LeftwardKeepsValue(w, r, s);
    }
  }

  lemma AndTwice(w: World, first: Expr, acc: Expr, r: Expr, s: Scope)
    requires r.And?
    requires EvalE(w, first, s) == EvalE(w, And(acc, r.left), s) && EvalCond(w, first, s) == EvalCond(w, And(acc, r.left), s)
    ensures EvalE(w, And(first, r.right), s) == EvalE(w, And(acc, r), s)
    ensures EvalCond(w, And(first, r.right), s) == EvalCond(w, And(acc, r), s)
  {
    AndTwiceValue(w, first, acc, r, s);
    AndStep(w, acc, r.left, s);
    AndStep(w, acc, r, s);
    AndStep(w, r.left, r.right, s);
    AndStep(w, first, r.right, s);
  }

  lemma AndTwiceValue(w: World, first: Expr, acc: Expr, r: Expr, s: Scope)
    requires r.And? && EvalE(w, first, s) == EvalE(w, And(acc, r.left), s)
    ensures EvalE(w, And(first, r.right), s) == EvalE(w, And(acc, r), s)
  {
    var a, b, c := EvalE(w, acc, s), EvalE(w, r.left, s), EvalE(w, r.right, s);
    if a.Ok? && b.Ok? && c.Ok? {
      AndAssociates(a.value, b.value, c.value);
    }
  }
}
