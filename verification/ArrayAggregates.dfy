/** The array pass on SELECTs that aggregate, group or remove duplicates. */
module ArrayAggregates {
  import opened Wrappers
  import opened SqlValues
  import opened SqlAst
  import opened SqlEval
  import opened SqlVisit
  import opened SqlScope
  import opened SqlMentions
  import opened FrameViews
  import opened ArrayIteration
  import opened ArrayRows
  import opened Bags
  import opened Grouping
  import opened GroupedSelect

  /** Every outer row walks an array, or NULL, from an integer at most 1. */
  ghost predicate Walked(w: World, b: Body, p: nat, env: Env)
    requires Walkable(b, p)
  {
    EvalFrom(w, b.from[..p], env).Ok? ==> AllWalk(w, WalkOf(b, p), EvalFrom(w, b.from[..p], env).value, env)
  }

  /** No outer row's array repeats a value. */
  ghost predicate NoRepeats(w: World, b: Body, p: nat, env: Env)
    requires Walkable(b, p)
  {
    EvalFrom(w, b.from[..p], env).Ok? ==>
      forall f :: f in EvalFrom(w, b.from[..p], env).value && ValueAt(w, IndexedArray(b.from[p].factor).value, f, env).Ok? ==>
        DistinctElements(ValueAt(w, IndexedArray(b.from[p].factor).value, f, env).value)
  }

  /** PostgreSQL's rule for grouping, over the columns of this FROM. */
  predicate Groupable(b: Body)
    requires b.Select?
  {
    Aggregated(b) && Unnested(b) && SteadyBody(b, Names(b.from))
  }

  function Sides(b: Body, p: nat, env: Env): Pair
    requires Walkable(b, p)
  {
    Pair(b, Candidate(b, p), b.groupBy, Arguments(b), Names(b.from), env)
  }

  lemma FewerNames(from: seq<FromItem>, p: nat)
    requires p < |from|
    ensures Names(Without1(from, p)) <= Names(from)
  {
    var rest := Without1(from, p);
    forall x | x in Names(rest) ensures x in Names(from) {
      var i :| 0 <= i < |rest| && x == FactorName(rest[i].factor);
      assert rest[i] == if i < p then from[i] else from[i + 1];
    }
  }

  lemma SidesTwinned(b: Body, p: nat, env: Env)
    requires Walkable(b, p) && Groupable(b)
    ensures Twinned(Sides(b, p, env))
  {
    FewerNames(b.from, p);
    forall e | e in b.groupBy ensures !HasAgg(e) {
      assert e in Listing(b);
    }
  }

  /** The lists of keys and arguments before and after. */
  lemma ListsSame(w: World, b: Body, p: nat, env: Env)
    requires Walkable(b, p) && Groupable(b) && AllB(Silent({b.from[p].factor.given}), Candidate(b, p)) && ArrayFunctions(w, b.from[p].factor)
    requires EvalB(w, Listed(b), env).Ok? && EvalB(w, Listed(Candidate(b, p)), env).Ok?
    requires Walked(w, b, p, env)
    ensures Same(NoRepeats(w, b, p, env), EvalB(w, Listed(b), env).value, EvalB(w, Listed(Candidate(b, p)), env).value)
  {
    PlainItems(Listing(b));
    assert Listing(Candidate(b, p)) == Listing(b);
    assert Candidate(Listed(b), p) == Listed(Candidate(b, p));
    ListedMeets(Silent({b.from[p].factor.given}), Candidate(b, p));
    CandidateKeepsRows(w, Listed(b), p, env);
  }

  /** An aggregating SELECT, grouped or not, with or without HAVING and DISTINCT: when no array
      repeats a value every aggregate keeps its answer; `max` and `min` keep theirs always. */
  lemma IndexToAnyKeepsGroups(w: World, b: Body, p: nat, env: Env)
    requires Changed(b, p) && Walkable(b, p) && Groupable(b) && ArrayFunctions(w, b.from[p].factor)
    requires EvalB(w, Listed(b), env).Ok? && EvalB(w, Listed(IndexToAny(b)), env).Ok? && EvalB(w, b, env).Ok?
    requires Walked(w, b, p, env)
    ensures BodyExtremes(b) || NoRepeats(w, b, p, env) ==>
      && EvalB(w, IndexToAny(b), env).Ok?
      && multiset(EvalB(w, IndexToAny(b), env).value) == multiset(EvalB(w, b, env).value)
      && (b.groupBy == [] ==> EvalB(w, IndexToAny(b), env) == EvalB(w, b, env))
  {
    PassRewrites(b, p);
    ListsSame(w, b, p, env);
    SidesTwinned(b, p, env);
    var exact := NoRepeats(w, b, p, env);
    if BodyExtremes(b) || exact {
      SelectsAgree(w, Sides(b, p, env), exact);
    }
  }

  /** Whatever an aggregate without GROUP BY does with them, it is handed the same values, as often
      when no array repeats one: `string_agg` joins the same strings in some order. */
  lemma IndexToAnyHandsOver(w: World, b: Body, p: nat, env: Env, arg: Expr)
    requires Changed(b, p) && Walkable(b, p) && Groupable(b) && ArrayFunctions(w, b.from[p].factor)
    requires EvalB(w, Listed(b), env).Ok? && EvalB(w, Listed(IndexToAny(b)), env).Ok?
    requires Walked(w, b, p, env)
    requires arg in Arguments(b)
    ensures Source(w, b, env).Ok? && Source(w, IndexToAny(b), env).Ok?
    ensures SameValues(NoRepeats(w, b, p, env),
                       EvalOver(w, arg, Envs(env, Source(w, b, env).value)),
                       EvalOver(w, arg, Envs(env, Source(w, IndexToAny(b), env).value)))
  {
    PassRewrites(b, p);
    ListsSame(w, b, p, env);
    SidesTwinned(b, p, env);
    var exact := NoRepeats(w, b, p, env);
    ListsMatch(w, Sides(b, p, env), exact);
    ColumnsMatch(w, Sides(b, p, env), exact, Source(w, b, env).value, Source(w, IndexToAny(b), env).value, arg);
  }

  /** SELECT DISTINCT keeps its rows whether or not the arrays repeat values. */
  lemma IndexToAnyKeepsDistinct(w: World, b: Body, p: nat, env: Env)
    requires Changed(b, p) && Walkable(b, p) && !Aggregated(b) && b.distinct && NoWildcard(b.proj)
    requires ArrayFunctions(w, b.from[p].factor)
    requires EvalB(w, b, env).Ok? && EvalB(w, IndexToAny(b), env).Ok?
    requires Walked(w, b, p, env)
    ensures multiset(EvalB(w, IndexToAny(b), env).value) == multiset(EvalB(w, b, env).value)
  {
    PassRewrites(b, p);
    var all := b.(distinct := false);
    assert Candidate(all, p) == Candidate(b, p).(distinct := false);
    AllRows(w, b, env);
    AllRows(w, Candidate(b, p), env);
    CandidateKeepsRows(w, all, p, env);
    DistinctBag(EvalB(w, all, env).value, EvalB(w, Candidate(all, p), env).value);
  }

  lemma AllRows(w: World, b: Body, env: Env)
    requires b.Select? && b.distinct && EvalB(w, b, env).Ok?
    ensures EvalB(w, b.(distinct := false), env).Ok?
    ensures EvalB(w, b, env).value == Distinct(EvalB(w, b.(distinct := false), env).value)
  {
    var all := b.(distinct := false);
    assert Source(w, all, env) == Source(w, b, env);
    SameOutput(w, b, Source(w, b, env).value, env);
  }

  lemma SameOutput(w: World, b: Body, kept: seq<Frame>, env: Env)
    requires b.Select?
    ensures Output(w, b.(distinct := false), kept, env) == Output(w, b, kept, env)
  {
    var all := b.(distinct := false);
    if Aggregated(b) {
      var keys := EvalKeys(w, b.groupBy, kept, env);
      if keys.Ok? {
        SameGroups(w, b, GroupsOf(b.groupBy, keys.value, kept), env);
      }
    }
  }

  lemma {:induction false} SameGroups(w: World, b: Body, groups: seq<seq<Frame>>, env: Env)
    requires b.Select?
    ensures EvalGroups(w, b.(distinct := false), groups, env) == EvalGroups(w, b, groups, env)
    decreases |groups|
  {
    if groups != [] {
      SameGroups(w, b, groups[1..], env);
      assert EvalGroup(w, b.(distinct := false), groups[0], env) == EvalGroup(w, b, groups[0], env);
    }
  }
}
