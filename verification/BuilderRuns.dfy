/**
  What builder code can do when it runs: an evaluator for the expression forms the guard
  handles, and the runs of a function.  Values are model instances, collections of them, or
  `Opaque`: anything the guard does not follow.

  Beside it stands a set-valued typing, which gives a name every type any of its sites gives it.
  The main theorem says that it is exact: a column can be read if and only if the typing gives
  the base of some read an instance type with that column.
 */
module BuilderRuns {
  import opened Common
  import opened BuilderCode
  import opened Sets

  // ---------------------------------------------------------------- evaluation

  datatype Value = Obj(model: string) | Coll(items: seq<Value>) | Opaque

  type Env = map<string, Value>

  /** The values a declared type admits: an instance, a flat collection, or `None` and the like. */
  ghost predicate Conforms(t: InferType, v: Value) {
    match v
    case Opaque => true
    case Obj(m) => t == InferType(m, false)
    case Coll(items) => t.many && forall u :: u in items ==> u == Opaque || u == Obj(t.model)
  }

  /** A collection kept inside a collection is not followed. */
  function Flat(v: Value): Value {
    if v.Coll? then Opaque else v
  }

  ghost predicate AttrValue(ctx: Context, w: Value, attr: string, v: Value) {
    if w.Obj? && w.model in ctx.metas && attr in ctx.metas[w.model].relationships
    then Conforms(ctx.metas[w.model].relationships[attr], v)
    else v == Opaque
  }

  /** `v` is a value expression `e` can have in `env`, for some contents of the database. */
  ghost predicate CanEval(ctx: Context, env: Env, e: Expr, v: Value)
    decreases e, 0
  {
    match e
    case Name(id) => v == (if id in env then env[id] else Opaque)
    case StrLit(_) => v == Opaque
    case Attr(base, attr) => exists w :: CanEval(ctx, env, base, w) && AttrValue(ctx, w, attr, v)
    case Call(func, args) =>
      if func in SEQUENCE_WRAPPERS && args != [] then
        exists w :: CanEval(ctx, env, args[0], w) && SomeOf(w, v)
      else if func in ctx.funcReturns then Conforms(ctx.funcReturns[func], v)
      else v == Opaque
    case Or(values) => (values == [] && v == Opaque) || exists k :: k in values && CanEval(ctx, env, k, v)
    case IfExp(_, body, orelse) => CanEval(ctx, env, body, v) || CanEval(ctx, env, orelse, v)
    case Subscript(base, _, slice) =>
      exists w :: CanEval(ctx, env, base, w) && if slice then SomeOf(w, v) else ItemOf(w, v)
    case Comp(kind, elt, gens) =>
      if kind.DictComp? then v == Opaque
      else
        v.Coll? && forall u :: u in v.items ==>
          exists inner, w :: GenReach(ctx, gens, env, inner) && CanEval(ctx, inner, elt, w) && u == Flat(w)
    case Other(_) => v == Opaque
  }

  /** A collection of some items of `w`; of what is not a collection nothing is followed. */
  predicate SomeOf(w: Value, v: Value) {
    if w.Coll? then v.Coll? && forall u :: u in v.items ==> u in w.items else v == Opaque
  }

  predicate ItemOf(w: Value, item: Value) {
    if w.Coll? then item in w.items else item == Opaque
  }

  /** `item` is something a loop over `iter` can bind. */
  ghost predicate LoopItem(ctx: Context, env: Env, iter: Expr, item: Value)
    decreases iter, 3
  {
    exists w :: CanEval(ctx, env, iter, w) && ItemOf(w, item)
  }

  function Entered(env: Env, g: Generator, item: Value): Env {
    if g.target.Some? then env[g.target.value := item] else env
  }

  /** The environments in which a comprehension evaluates its element. */
  ghost predicate GenReach(ctx: Context, gens: seq<Generator>, env: Env, inner: Env)
    decreases gens
  {
    if gens == [] then inner == env
    else exists item :: LoopItem(ctx, env, gens[0].iter, item) && GenReach(ctx, gens[1..], Entered(env, gens[0], item), inner)
  }

  ghost predicate SiteValue(ctx: Context, env: Env, s: Site, v: Value) {
    match s
    case Bind(_, value) => CanEval(ctx, env, value, v)
    case Loop(_, iterable) => LoopItem(ctx, env, iterable, v)
  }

  function Forget(env: Env, x: string): Env {
    env[x := Opaque]
  }

  /** One binding happens: at a place of the text that binds, or some other form binds a value nobody follows. */
  ghost predicate Step(ctx: Context, fn: Function, env: Env, env': Env) {
    || (exists s, v :: Binds(fn.body, s) && SiteValue(ctx, env, s, v) && env' == env[s.name := v])
    || (exists x :: env' == Forget(env, x))
  }

  ghost predicate Initial(fn: Function, env: Env) {
    forall x :: x in env ==> if x in fn.params then Conforms(fn.params[x], env[x]) else env[x] == Opaque
  }

  /** A run of the function, in any control flow: the environments it passes through. */
  ghost predicate IsRun(ctx: Context, fn: Function, run: seq<Env>) {
    && run != []
    && Initial(fn, run[0])
    && forall i, j {:trigger Step(ctx, fn, run[i], run[j])} :: 0 <= i < j == i + 1 < |run| ==> Step(ctx, fn, run[i], run[j])
  }

  /** The expression node `n` reads column `c` off, by an attribute or a `getattr` with a literal. */
  function ReadBase(n: Expr, c: string): Option<Expr> {
    if n.Attr? && n.attr == c then Some(n.base)
    else if n.Call? && n.func == "getattr" && |n.args| >= 2 && n.args[1] == StrLit(c) then Some(n.args[0])
    else None
  }

  predicate HasColumn(ctx: Context, m: string, c: string) {
    m in ctx.metas && c in ctx.metas[m].columns
  }

  /** Node `n`, evaluated in `env`, reads column `c` off an instance of model `m`. */
  ghost predicate ReadsAt(ctx: Context, env: Env, n: Expr, m: string, c: string) {
    HasColumn(ctx, m, c) && ReadBase(n, c).Some? && CanEval(ctx, env, ReadBase(n, c).value, Obj(m))
  }

  /** Some run of the function reads column `c` off a `m` at node `n`. */
  ghost predicate CanReadAt(ctx: Context, fn: Function, n: Expr, m: string, c: string) {
    exists run :: IsRun(ctx, fn, run) && ReadsAt(ctx, run[|run| - 1], n, m, c)
  }

  /** Some expression of the function's text reads the column, in some run. */
  ghost predicate CanRead(ctx: Context, fn: Function, m: string, c: string) {
    exists n :: OccursIn(n, fn.body) && CanReadAt(ctx, fn, n, m, c)
  }

  lemma NodeCanRead(ctx: Context, fn: Function, n: Expr, m: string, c: string)
    requires n in FunctionNodes(fn) && CanReadAt(ctx, fn, n, m, c)
    ensures CanRead(ctx, fn, m, c)
  {
    NodesAreOccurrences(fn, n);
  }

  lemma ReadingNode(ctx: Context, fn: Function, m: string, c: string) returns (n: Expr)
    requires CanRead(ctx, fn, m, c)
    ensures n in FunctionNodes(fn) && CanReadAt(ctx, fn, n, m, c)
  {
    n :| OccursIn(n, fn.body) && CanReadAt(ctx, fn, n, m, c);
    NodesAreOccurrences(fn, n);
  }

  // ---------------------------------------------------------------- a set-valued typing

  /** The types each name may have. */
  type Typing = iset<(string, InferType)>

  /** `t` is one of the types of `e` when names have the types `g` gives them. */
  ghost predicate HasType(ctx: Context, g: Typing, e: Expr, t: InferType)
    decreases e, 0
  {
    match e
    case Name(id) => (id, t) in g
    case StrLit(_) => false
    case Attr(base, attr) =>
      exists m :: HasType(ctx, g, base, InferType(m, false)) && RelatedBy(ctx, m, attr, t)
    case Call(func, args) =>
      if func in SEQUENCE_WRAPPERS && args != [] then t.many && HasType(ctx, g, args[0], t)
      else func in ctx.funcReturns && ctx.funcReturns[func] == t
    case Or(values) => exists k :: k in values && HasType(ctx, g, k, t)
    case IfExp(_, body, orelse) => HasType(ctx, g, body, t) || HasType(ctx, g, orelse, t)
    case Subscript(base, _, slice) => t.many == slice && HasType(ctx, g, base, InferType(t.model, true))
    case Comp(kind, elt, gens) =>
      !kind.DictComp? && t.many && HasType(ctx, Inside(ctx, g, gens), elt, InferType(t.model, false))
    case Other(_) => false
  }

  predicate RelatedBy(ctx: Context, m: string, attr: string, t: InferType) {
    m in ctx.metas && attr in ctx.metas[m].relationships && ctx.metas[m].relationships[attr] == t
  }

  ghost predicate ItemHasType(ctx: Context, g: Typing, iter: Expr, t: InferType)
    decreases iter, 3
  {
    !t.many && HasType(ctx, g, iter, InferType(t.model, true))
  }

  /** The typing inside the clauses of a comprehension: their targets hide the names outside. */
  ghost function Inside(ctx: Context, g: Typing, gens: seq<Generator>): Typing
    decreases gens
  {
    if gens == [] then g else Inside(ctx, After(ctx, g, gens[0]), gens[1..])
  }

  ghost function After(ctx: Context, g: Typing, clause: Generator): Typing
    decreases clause
  {
    if clause.target.None? then g
    else iset x, t | if x == clause.target.value then ItemHasType(ctx, g, clause.iter, t) else (x, t) in g :: (x, t)
  }

  lemma InAfter(ctx: Context, g: Typing, clause: Generator, x: string, t: InferType)
    ensures (x, t) in After(ctx, g, clause) <==>
      if clause.target == Some(x) then ItemHasType(ctx, g, clause.iter, t) else (x, t) in g
  {
  }

  ghost predicate SiteHasType(ctx: Context, g: Typing, s: Site, t: InferType) {
    match s
    case Bind(_, value) => HasType(ctx, g, value, t)
    case Loop(_, iterable) => ItemHasType(ctx, g, iterable, t)
  }

  /** The types the names of a function may have after `k` rounds over its binding sites. */
  ghost function Possible(ctx: Context, fn: Function, k: nat): Typing {
    if k == 0 then iset x, t | x in fn.params && fn.params[x] == t :: (x, t)
    else Possible(ctx, fn, k - 1) + NextTypes(ctx, fn, Possible(ctx, fn, k - 1))
  }

  ghost function NextTypes(ctx: Context, fn: Function, g: Typing): Typing {
    iset s, t | s in FunctionSites(fn) && SiteHasType(ctx, g, s, t) :: (s.name, t)
  }

  /** The typing gives the base of node `n` an instance type with column `c`. */
  ghost predicate TypedReadAt(ctx: Context, g: Typing, n: Expr, m: string, c: string) {
    HasColumn(ctx, m, c) && ReadBase(n, c).Some? && HasType(ctx, g, ReadBase(n, c).value, InferType(m, false))
  }

  // ---------------------------------------------------------------- the rounds settle

  /** The models a type can name: those of parameters, annotated returns and relationships. */
  ghost function ModelsOf(ctx: Context, fn: Function): set<string> {
    (set x | x in fn.params :: fn.params[x].model)
    + (set f | f in ctx.funcReturns :: ctx.funcReturns[f].model)
    + (set m, a | m in ctx.metas && a in ctx.metas[m].relationships :: ctx.metas[m].relationships[a].model)
  }

  ghost function NamesOf(fn: Function): set<string> {
    fn.params.Keys + SiteNames(FunctionSites(fn))
  }

  /** Every name of the function with every type over those models. */
  ghost function Pairs(ctx: Context, fn: Function): set<(string, InferType)> {
    set x, m, many | x in NamesOf(fn) && m in ModelsOf(ctx, fn) && many in {false, true} :: (x, InferType(m, many))
  }

  /** The types each name of the function may have, once the rounds have settled. */
  ghost function Types(ctx: Context, fn: Function): Typing {
    Possible(ctx, fn, |Pairs(ctx, fn)|)
  }

  ghost predicate ContextWithin(ctx: Context, models: set<string>) {
    && (forall f :: f in ctx.funcReturns ==> ctx.funcReturns[f].model in models)
    && (forall m, attr, t :: RelatedBy(ctx, m, attr, t) ==> t.model in models)
  }

  ghost predicate TypingWithin(g: Typing, models: set<string>) {
    forall x, t :: (x, t) in g ==> t.model in models
  }

  /** No type of an expression names a model from elsewhere. */
  lemma {:induction false} TypeWithin(ctx: Context, g: Typing, e: Expr, t: InferType, models: set<string>)
    requires ContextWithin(ctx, models) && TypingWithin(g, models) && HasType(ctx, g, e, t)
    ensures t.model in models
    decreases e, 2
  {
    match e
    case Name(_) =>
    case Attr(base, attr) => var m :| HasType(ctx, g, base, InferType(m, false)) && RelatedBy(ctx, m, attr, t);
    case Call(func, args) =>
      if func in SEQUENCE_WRAPPERS && args != [] {
        TypeWithin(ctx, g, args[0], t, models);
      }
    case Or(values) =>
      var k :| k in values && HasType(ctx, g, k, t);
      TypeWithin(ctx, g, k, t, models);
    case IfExp(_, body, orelse) => TypeWithin(ctx, g, if HasType(ctx, g, body, t) then body else orelse, t, models);
    case Subscript(base, _, _) => TypeWithin(ctx, g, base, InferType(t.model, true), models);
    case Comp(_, elt, gens) =>
      InsideWithin(ctx, g, gens, models);
      TypeWithin(ctx, Inside(ctx, g, gens), elt, InferType(t.model, false), models);
  }

  lemma {:induction false} InsideWithin(ctx: Context, g: Typing, gens: seq<Generator>, models: set<string>)
    requires ContextWithin(ctx, models) && TypingWithin(g, models)
    ensures TypingWithin(Inside(ctx, g, gens), models)
    decreases gens
  {
    if gens != [] {
      forall x, t | (x, t) in After(ctx, g, gens[0]) ensures t.model in models {
        InAfter(ctx, g, gens[0], x, t);
        if gens[0].target == Some(x) {
          TypeWithin(ctx, g, gens[0].iter, InferType(t.model, true), models);
        }
      }
      InsideWithin(ctx, After(ctx, g, gens[0]), gens[1..], models);
    }
  }

  lemma RoundWithin(ctx: Context, fn: Function, g: Typing, models: set<string>)
    requires ContextWithin(ctx, models) && TypingWithin(g, models)
    ensures TypingWithin(NextTypes(ctx, fn, g), models)
    ensures forall x, t :: (x, t) in NextTypes(ctx, fn, g) ==> x in NamesOf(fn)
  {
    forall x, t | (x, t) in NextTypes(ctx, fn, g) ensures t.model in models && x in NamesOf(fn) {
      var s :| s in FunctionSites(fn) && s.name == x && SiteHasType(ctx, g, s, t);
      TypeWithin(ctx, g, SiteExpr(s), if s.Bind? then t else InferType(t.model, true), models);
    }
  }

  lemma ContextModels(ctx: Context, fn: Function)
    ensures ContextWithin(ctx, ModelsOf(ctx, fn))
  {
  }

  lemma InPairs(ctx: Context, fn: Function, x: string, t: InferType)
    requires x in NamesOf(fn) && t.model in ModelsOf(ctx, fn)
    ensures (x, t) in Pairs(ctx, fn)
  {
    assert t == InferType(t.model, t.many);
  }

  lemma {:induction false} PossibleWithin(ctx: Context, fn: Function, k: nat)
    ensures TypingWithin(Possible(ctx, fn, k), ModelsOf(ctx, fn))
    ensures forall x, t :: (x, t) in Possible(ctx, fn, k) ==> x in NamesOf(fn)
  {
    if k > 0 {
      PossibleWithin(ctx, fn, k - 1);
      ContextModels(ctx, fn);
      RoundWithin(ctx, fn, Possible(ctx, fn, k - 1), ModelsOf(ctx, fn));
    }
  }

  /** The pairs that `k` rounds have found. */
  ghost function Found(ctx: Context, fn: Function, k: nat): (r: set<(string, InferType)>)
    ensures r <= Pairs(ctx, fn)
  {
    set p | p in Pairs(ctx, fn) && p in Possible(ctx, fn, k)
  }

  lemma InFound(ctx: Context, fn: Function, k: nat, p: (string, InferType))
    ensures p in Found(ctx, fn, k) <==> p in Possible(ctx, fn, k)
  {
    PossibleWithin(ctx, fn, k);
    if p in Possible(ctx, fn, k) {
      assert p == (p.0, p.1);
      InPairs(ctx, fn, p.0, p.1);
    }
  }

  lemma FoundIsPossible(ctx: Context, fn: Function, k: nat)
    ensures forall p :: p in Found(ctx, fn, k) <==> p in Possible(ctx, fn, k)
  {
    forall p ensures p in Found(ctx, fn, k) <==> p in Possible(ctx, fn, k) {
      InFound(ctx, fn, k, p);
    }
  }

  lemma PossibleGrows(ctx: Context, fn: Function, k: nat)
    ensures Possible(ctx, fn, k) <= Possible(ctx, fn, k + 1)
  {
  }

  ghost predicate Fixed(ctx: Context, fn: Function, k: nat) {
    Possible(ctx, fn, k + 1) == Possible(ctx, fn, k)
  }

  /** A round that is not the last finds another pair. */
  lemma FixedOrMore(ctx: Context, fn: Function, k: nat)
    ensures Fixed(ctx, fn, k) || |Found(ctx, fn, k)| < |Found(ctx, fn, k + 1)|
  {
    FoundIsPossible(ctx, fn, k);
    FoundIsPossible(ctx, fn, k + 1);
    PossibleGrows(ctx, fn, k);
    GrowsOrSame(Found(ctx, fn, k), Found(ctx, fn, k + 1), Possible(ctx, fn, k), Possible(ctx, fn, k + 1));
  }

  lemma GrowsOrSame(a: set<(string, InferType)>, b: set<(string, InferType)>, g: Typing, h: Typing)
    requires g <= h && (forall p :: p in a <==> p in g) && forall p :: p in b <==> p in h
    ensures g == h || |a| < |b|
  {
    SubsetSize(a, b);
    if |a| == |b| {
      SameSize(a, b);
    }
  }

  lemma {:induction false} FixedOrMany(ctx: Context, fn: Function, k: nat)
    ensures Fixed(ctx, fn, k) || |Found(ctx, fn, k + 1)| > k
  {
    FixedOrMore(ctx, fn, k);
    if k > 0 {
      FixedOrMany(ctx, fn, k - 1);
      FixedOn(ctx, fn, k - 1);
    }
  }

  lemma FixedOn(ctx: Context, fn: Function, k: nat)
    ensures Fixed(ctx, fn, k) ==> Fixed(ctx, fn, k + 1)
  {
    if Fixed(ctx, fn, k) {
      assert Possible(ctx, fn, k + 2) == Possible(ctx, fn, k + 1) + NextTypes(ctx, fn, Possible(ctx, fn, k + 1));
      assert Possible(ctx, fn, k + 1) == Possible(ctx, fn, k) + NextTypes(ctx, fn, Possible(ctx, fn, k));
    }
  }

  /** As many rounds as there are pairs of a name and a type settle the typing. */
  lemma RoundsSettleTypes(ctx: Context, fn: Function)
    ensures NextTypes(ctx, fn, Types(ctx, fn)) <= Types(ctx, fn)
  {
    var k := |Pairs(ctx, fn)|;
    FixedOrMany(ctx, fn, k);
    SubsetSize(Found(ctx, fn, k + 1), Pairs(ctx, fn));
    assert Possible(ctx, fn, k + 1) == Possible(ctx, fn, k) + NextTypes(ctx, fn, Possible(ctx, fn, k));
  }

  /** No number of rounds finds a type beyond those. */
  lemma {:induction false} TypesAreAll(ctx: Context, fn: Function, k: nat)
    ensures k >= |Pairs(ctx, fn)| ==> Possible(ctx, fn, k) == Types(ctx, fn)
  {
    if k > |Pairs(ctx, fn)| {
      TypesAreAll(ctx, fn, k - 1);
      RoundsSettleTypes(ctx, fn);
      assert Possible(ctx, fn, k) == Possible(ctx, fn, k - 1) + NextTypes(ctx, fn, Possible(ctx, fn, k - 1));
    }
  }

  lemma {:induction false} ParamsTyped(ctx: Context, fn: Function, k: nat)
    ensures Possible(ctx, fn, 0) <= Possible(ctx, fn, k)
  {
    if k > 0 {
      ParamsTyped(ctx, fn, k - 1);
    }
  }

  // ---------------------------------------------------------------- every read has a type

  /** Every model instance in `v` is of one of the types of `e`. */
  ghost predicate ValueTyped(ctx: Context, g: Typing, e: Expr, v: Value) {
    match v
    case Opaque => true
    case Obj(m) => HasType(ctx, g, e, InferType(m, false))
    case Coll(items) => forall u :: u in items ==> u == Opaque || (u.Obj? && HasType(ctx, g, e, InferType(u.model, true)))
  }

  ghost predicate EnvTyped(ctx: Context, g: Typing, env: Env) {
    forall x :: x in env ==> ValueTyped(ctx, g, Name(x), env[x])
  }

  /** An item of a typed value. */
  ghost predicate ItemTyped(ctx: Context, g: Typing, iter: Expr, item: Value) {
    item == Opaque || (item.Obj? && ItemHasType(ctx, g, iter, InferType(item.model, false)))
  }

  lemma {:induction false} Preservation(ctx: Context, g: Typing, env: Env, e: Expr, v: Value)
    requires EnvTyped(ctx, g, env) && CanEval(ctx, env, e, v)
    ensures ValueTyped(ctx, g, e, v)
    decreases e, 2
  {
    match e
    case Name(id) => if id in env { assert ValueTyped(ctx, g, Name(id), env[id]); }
    case StrLit(_) =>
    case Other(_) =>
    case Attr(base, attr) =>
      var w :| CanEval(ctx, env, base, w) && AttrValue(ctx, w, attr, v);
      Preservation(ctx, g, env, base, w);
      if w.Obj? && w.model in ctx.metas && attr in ctx.metas[w.model].relationships {
        assert RelatedBy(ctx, w.model, attr, ctx.metas[w.model].relationships[attr]);
      }
    case Call(func, args) =>
      if func in SEQUENCE_WRAPPERS && args != [] {
        var w :| CanEval(ctx, env, args[0], w) && SomeOf(w, v);
        Preservation(ctx, g, env, args[0], w);
      }
    case Or(values) =>
      if k :| k in values && CanEval(ctx, env, k, v) {
        Preservation(ctx, g, env, k, v);
      }
    case IfExp(_, body, orelse) =>
      if CanEval(ctx, env, body, v) {
        Preservation(ctx, g, env, body, v);
      } else {
        Preservation(ctx, g, env, orelse, v);
      }
    case Subscript(base, _, slice) =>
      var w :| CanEval(ctx, env, base, w) && if slice then SomeOf(w, v) else ItemOf(w, v);
      Preservation(ctx, g, env, base, w);
    case Comp(kind, elt, gens) =>
      if !kind.DictComp? {
        forall u | u in v.items ensures u == Opaque || (u.Obj? && HasType(ctx, g, e, InferType(u.model, true))) {
          var inner, w :| GenReach(ctx, gens, env, inner) && CanEval(ctx, inner, elt, w) && u == Flat(w);
          GeneratorsPreserve(ctx, g, gens, env, inner);
          Preservation(ctx, Inside(ctx, g, gens), inner, elt, w);
        }
      }
  }

  lemma {:induction false} LoopPreserves(ctx: Context, g: Typing, env: Env, iter: Expr, item: Value)
    requires EnvTyped(ctx, g, env) && LoopItem(ctx, env, iter, item)
    ensures ItemTyped(ctx, g, iter, item)
    decreases iter, 3
  {
    var w :| CanEval(ctx, env, iter, w) && ItemOf(w, item);
    Preservation(ctx, g, env, iter, w);
  }

  /** Inside a comprehension the environment has the typing inside. */
  lemma {:induction false} GeneratorsPreserve(ctx: Context, g: Typing, gens: seq<Generator>, env: Env, inner: Env)
    requires EnvTyped(ctx, g, env) && GenReach(ctx, gens, env, inner)
    ensures EnvTyped(ctx, Inside(ctx, g, gens), inner)
    decreases gens
  {
    if gens != [] {
      var item :| LoopItem(ctx, env, gens[0].iter, item) && GenReach(ctx, gens[1..], Entered(env, gens[0], item), inner);
      LoopPreserves(ctx, g, env, gens[0].iter, item);
      EnteredTyped(ctx, g, gens[0], env, item);
      GeneratorsPreserve(ctx, After(ctx, g, gens[0]), gens[1..], Entered(env, gens[0], item), inner);
    }
  }

  lemma EnteredTyped(ctx: Context, g: Typing, clause: Generator, env: Env, item: Value)
    requires EnvTyped(ctx, g, env) && ItemTyped(ctx, g, clause.iter, item)
    ensures EnvTyped(ctx, After(ctx, g, clause), Entered(env, clause, item))
  {
    var after, env' := After(ctx, g, clause), Entered(env, clause, item);
    forall x | x in env' ensures ValueTyped(ctx, after, Name(x), env'[x]) {
      if clause.target != Some(x) {
        assert ValueTyped(ctx, g, Name(x), env[x]);
      }
    }
  }

  lemma StepPreserves(ctx: Context, fn: Function, g: Typing, env: Env, env': Env)
    requires EnvTyped(ctx, g, env) && Step(ctx, fn, env, env')
    ensures EnvTyped(ctx, g + NextTypes(ctx, fn, g), env')
  {
    var after := g + NextTypes(ctx, fn, g);
    forall x | x in env' ensures ValueTyped(ctx, after, Name(x), env'[x]) {
      if x in env && env'[x] == env[x] {
        assert ValueTyped(ctx, g, Name(x), env[x]);
      } else if env'[x] != Opaque {
        var s, v :| Binds(fn.body, s) && SiteValue(ctx, env, s, v) && env' == env[s.name := v];
        SitesAreBindings(fn, s);
        SiteValueTyped(ctx, fn, g, env, s, v);
      }
    }
  }

  lemma SiteValueTyped(ctx: Context, fn: Function, g: Typing, env: Env, s: Site, v: Value)
    requires EnvTyped(ctx, g, env) && s in FunctionSites(fn) && SiteValue(ctx, env, s, v)
    ensures ValueTyped(ctx, NextTypes(ctx, fn, g), Name(s.name), v)
  {
    match s
    case Bind(_, value) => Preservation(ctx, g, env, value, v);
    case Loop(_, iterable) => LoopPreserves(ctx, g, env, iterable, v);
    forall t | SiteHasType(ctx, g, s, t) ensures (s.name, t) in NextTypes(ctx, fn, g) {}
  }

  lemma StartTyped(ctx: Context, fn: Function, env: Env)
    requires Initial(fn, env)
    ensures EnvTyped(ctx, Types(ctx, fn), env)
  {
    ParamsTyped(ctx, fn, |Pairs(ctx, fn)|);
    forall x | x in env ensures ValueTyped(ctx, Types(ctx, fn), Name(x), env[x]) {
      if x in fn.params {
        assert (x, fn.params[x]) in Possible(ctx, fn, 0);
      }
    }
  }

  lemma StepStaysTyped(ctx: Context, fn: Function, g: Typing, env: Env, env': Env)
    requires NextTypes(ctx, fn, g) <= g && EnvTyped(ctx, g, env) && Step(ctx, fn, env, env')
    ensures EnvTyped(ctx, g, env')
  {
    StepPreserves(ctx, fn, g, env, env');
    assert g + NextTypes(ctx, fn, g) == g;
  }

  lemma {:induction false} RunStaysTyped(ctx: Context, fn: Function, g: Typing, run: seq<Env>, i: nat)
    requires NextTypes(ctx, fn, g) <= g && IsRun(ctx, fn, run) && i < |run| && EnvTyped(ctx, g, run[0])
    ensures EnvTyped(ctx, g, run[i])
  {
    if i > 0 {
      RunStaysTyped(ctx, fn, g, run, i - 1);
      assert Step(ctx, fn, run[i - 1], run[i]);
      StepStaysTyped(ctx, fn, g, run[i - 1], run[i]);
    }
  }

  /** A run of any length, in any control flow, is typed by the settled typing. */
  lemma RunTyped(ctx: Context, fn: Function, run: seq<Env>, i: nat)
    requires IsRun(ctx, fn, run) && i < |run|
    ensures EnvTyped(ctx, Types(ctx, fn), run[i])
  {
    StartTyped(ctx, fn, run[0]);
    RoundsSettleTypes(ctx, fn);
    RunStaysTyped(ctx, fn, Types(ctx, fn), run, i);
  }

  // ---------------------------------------------------------------- every type has a run

  /** The plainest value of a type. */
  function Witness(t: InferType): Value {
    if t.many then Coll([Obj(t.model)]) else Obj(t.model)
  }

  /** No collection in it is empty, or holds another. */
  predicate Rich(v: Value) {
    v.Coll? ==> v.items != [] && forall u :: u in v.items ==> !u.Coll?
  }

  ghost predicate RichEnv(env: Env) {
    forall x :: x in env ==> Rich(env[x])
  }

  /** In an environment without empty collections every expression has a value that is not one. */
  lemma {:induction false} SomeValue(ctx: Context, env: Env, e: Expr) returns (v: Value)
    requires RichEnv(env)
    ensures CanEval(ctx, env, e, v) && Rich(v)
    decreases e, 2
  {
    match e
    case Name(id) => v := if id in env then env[id] else Opaque;
    case StrLit(_) => v := Opaque;
    case Other(_) => v := Opaque;
    case Attr(base, attr) =>
      var w := SomeValue(ctx, env, base);
      v := Opaque;
      assert AttrValue(ctx, w, attr, v);
    case Call(func, args) =>
      v := Opaque;
      if func in SEQUENCE_WRAPPERS && args != [] {
        var w := SomeValue(ctx, env, args[0]);
        v := if w.Coll? then w else Opaque;
        assert SomeOf(w, v);
      }
    case Or(values) =>
      if values == [] {
        v := Opaque;
      } else {
        v := SomeValue(ctx, env, values[0]);
        assert values[0] in values;
      }
    case IfExp(_, body, orelse) => v := SomeValue(ctx, env, body);
    case Subscript(base, _, slice) =>
      var w := SomeValue(ctx, env, base);
      v := if !w.Coll? then Opaque else if slice then w else w.items[0];
    case Comp(kind, elt, gens) =>
      if kind.DictComp? {
        v := Opaque;
      } else {
        var inner := SomeInner(ctx, env, gens);
        var w := SomeValue(ctx, inner, elt);
        v := Coll([Flat(w)]);
      }
  }

  lemma {:induction false} SomeItem(ctx: Context, env: Env, iter: Expr) returns (item: Value)
    requires RichEnv(env)
    ensures LoopItem(ctx, env, iter, item) && Rich(item)
    decreases iter, 3
  {
    var w := SomeValue(ctx, env, iter);
    item := if w.Coll? then w.items[0] else Opaque;
    assert ItemOf(w, item);
  }

  lemma {:induction false} SomeInner(ctx: Context, env: Env, gens: seq<Generator>) returns (inner: Env)
    requires RichEnv(env)
    ensures GenReach(ctx, gens, env, inner) && RichEnv(inner)
    decreases gens
  {
    if gens == [] {
      inner := env;
    } else {
      var item := SomeItem(ctx, env, gens[0].iter);
      inner := SomeInner(ctx, Entered(env, gens[0], item), gens[1..]);
    }
  }

  /** `root` is typed so by `g`, or there is none. */
  ghost predicate RootIn(g: Typing, root: Option<(string, InferType)>) {
    root.Some? ==> root.value in g
  }

  /** A rich environment where the root has the witness of its type. */
  ghost predicate Rooted(env: Env, root: Option<(string, InferType)>) {
    RichEnv(env) && (root.Some? ==> root.value.0 in env && env[root.value.0] == Witness(root.value.1))
  }

  /** Wherever the root has its type, `e` can have the witness of `t`. */
  ghost predicate Carries(ctx: Context, root: Option<(string, InferType)>, e: Expr, t: InferType) {
    forall env {:trigger CanEval(ctx, env, e, Witness(t))} :: Rooted(env, root) ==> CanEval(ctx, env, e, Witness(t))
  }

  /** A type of an expression comes from one type of at most one name: wherever that name has it, the value can. */
  lemma {:induction false} TypeHasRoot(ctx: Context, g: Typing, e: Expr, t: InferType) returns (root: Option<(string, InferType)>)
    requires HasType(ctx, g, e, t)
    ensures RootIn(g, root) && Carries(ctx, root, e, t)
    decreases e, 2
  {
    match e
    case Name(id) => root := Some((id, t));
    case Attr(base, attr) =>
      var m :| HasType(ctx, g, base, InferType(m, false)) && RelatedBy(ctx, m, attr, t);
      root := TypeHasRoot(ctx, g, base, InferType(m, false));
      AttrCarries(ctx, root, base, attr, m, t);
    case Call(func, args) =>
      root := None;
      if func in SEQUENCE_WRAPPERS && args != [] {
        root := TypeHasRoot(ctx, g, args[0], t);
      }
      CallCarries(ctx, root, func, args, t);
    case Or(values) =>
      var k :| k in values && HasType(ctx, g, k, t);
      root := TypeHasRoot(ctx, g, k, t);
      OrCarries(ctx, root, values, k, t);
    case IfExp(test, body, orelse) =>
      var k := if HasType(ctx, g, body, t) then body else orelse;
      root := TypeHasRoot(ctx, g, k, t);
      BranchCarries(ctx, root, test, body, orelse, k, t);
    case Subscript(base, index, slice) =>
      root := TypeHasRoot(ctx, g, base, InferType(t.model, true));
      SubscriptCarries(ctx, root, base, index, slice, t);
    case Comp(kind, elt, gens) =>
      var local := TypeHasRoot(ctx, Inside(ctx, g, gens), elt, InferType(t.model, false));
      root := RootOutside(ctx, g, gens, local);
      CompCarries(ctx, root, local, kind, elt, gens, t);
  }

  lemma AttrCarries(ctx: Context, root: Option<(string, InferType)>, base: Expr, attr: string, m: string, t: InferType)
    requires Carries(ctx, root, base, InferType(m, false)) && RelatedBy(ctx, m, attr, t)
    ensures Carries(ctx, root, Attr(base, attr), t)
  {
    forall env | Rooted(env, root) ensures CanEval(ctx, env, Attr(base, attr), Witness(t)) {
      assert CanEval(ctx, env, base, Witness(InferType(m, false))) && AttrValue(ctx, Obj(m), attr, Witness(t));
    }
  }

  lemma CallCarries(ctx: Context, root: Option<(string, InferType)>, func: string, args: seq<Expr>, t: InferType)
    requires if func in SEQUENCE_WRAPPERS && args != [] then t.many && Carries(ctx, root, args[0], t)
             else func in ctx.funcReturns && ctx.funcReturns[func] == t
    ensures Carries(ctx, root, Call(func, args), t)
  {
    forall env | Rooted(env, root) ensures CanEval(ctx, env, Call(func, args), Witness(t)) {
      if func in SEQUENCE_WRAPPERS && args != [] {
        assert CanEval(ctx, env, args[0], Witness(t)) && SomeOf(Witness(t), Witness(t));
      }
    }
  }

  lemma OrCarries(ctx: Context, root: Option<(string, InferType)>, values: seq<Expr>, k: Expr, t: InferType)
    requires k in values && Carries(ctx, root, k, t)
    ensures Carries(ctx, root, Or(values), t)
  {
    forall env | Rooted(env, root) ensures CanEval(ctx, env, Or(values), Witness(t)) {
      assert CanEval(ctx, env, k, Witness(t));
    }
  }

  lemma BranchCarries(
      ctx: Context, root: Option<(string, InferType)>, test: Expr, body: Expr, orelse: Expr, k: Expr, t: InferType)
    requires k in [body, orelse] && Carries(ctx, root, k, t)
    ensures Carries(ctx, root, IfExp(test, body, orelse), t)
  {
    forall env | Rooted(env, root) ensures CanEval(ctx, env, IfExp(test, body, orelse), Witness(t)) {
      assert CanEval(ctx, env, k, Witness(t));
    }
  }

  lemma SubscriptCarries(
      ctx: Context, root: Option<(string, InferType)>, base: Expr, index: Expr, slice: bool, t: InferType)
    requires t.many == slice && Carries(ctx, root, base, InferType(t.model, true))
    ensures Carries(ctx, root, Subscript(base, index, slice), t)
  {
    forall env | Rooted(env, root) ensures CanEval(ctx, env, Subscript(base, index, slice), Witness(t)) {
      var w := Witness(InferType(t.model, true));
      assert CanEval(ctx, env, base, w) && Obj(t.model) in w.items;
    }
  }

  lemma CompCarries(
      ctx: Context, root: Option<(string, InferType)>, local: Option<(string, InferType)>,
      kind: CompKind, elt: Expr, gens: seq<Generator>, t: InferType)
    requires !kind.DictComp? && t.many && Carries(ctx, local, elt, InferType(t.model, false))
    requires Leads(ctx, gens, root, local)
    ensures Carries(ctx, root, Comp(kind, elt, gens), t)
  {
    forall env | Rooted(env, root) ensures CanEval(ctx, env, Comp(kind, elt, gens), Witness(t)) {
      assert Opens(ctx, gens, env, local);
      var inner :| GenReach(ctx, gens, env, inner) && Rooted(inner, local);
      assert CanEval(ctx, inner, elt, Witness(InferType(t.model, false)));
      CompWitness(ctx, env, inner, kind, elt, gens, t);
    }
  }

  lemma CompWitness(ctx: Context, env: Env, inner: Env, kind: CompKind, elt: Expr, gens: seq<Generator>, t: InferType)
    requires !kind.DictComp? && t.many && GenReach(ctx, gens, env, inner)
    requires CanEval(ctx, inner, elt, Witness(InferType(t.model, false)))
    ensures CanEval(ctx, env, Comp(kind, elt, gens), Witness(t))
  {
    assert Flat(Obj(t.model)) == Obj(t.model) && Witness(InferType(t.model, false)) == Obj(t.model);
  }

  /** The clauses reach an environment where the local root has its type. */
  ghost predicate Opens(ctx: Context, gens: seq<Generator>, env: Env, local: Option<(string, InferType)>) {
    exists inner {:trigger GenReach(ctx, gens, env, inner)} :: GenReach(ctx, gens, env, inner) && Rooted(inner, local)
  }

  /** Wherever the root has its type, they do. */
  ghost predicate Leads(ctx: Context, gens: seq<Generator>, root: Option<(string, InferType)>, local: Option<(string, InferType)>) {
    forall env {:trigger Opens(ctx, gens, env, local)} :: Rooted(env, root) ==> Opens(ctx, gens, env, local)
  }

  /** What is typed inside a comprehension goes back to a root outside. */
  lemma {:induction false} RootOutside(ctx: Context, g: Typing, gens: seq<Generator>, local: Option<(string, InferType)>)
    returns (root: Option<(string, InferType)>)
    requires RootIn(Inside(ctx, g, gens), local)
    ensures RootIn(g, root) && Leads(ctx, gens, root, local)
    decreases gens
  {
    if gens == [] {
      root := local;
      NoClauseLeads(ctx, local);
    } else {
      var next := RootOutside(ctx, After(ctx, g, gens[0]), gens[1..], local);
      root := RootBefore(ctx, g, gens[0], next);
      ClauseLeads(ctx, gens, root, next, local);
    }
  }

  lemma NoClauseLeads(ctx: Context, local: Option<(string, InferType)>)
    ensures Leads(ctx, [], local, local)
  {
    forall env | Rooted(env, local) ensures Opens(ctx, [], env, local) {
      assert GenReach(ctx, [], env, env);
    }
  }

  lemma ClauseLeads(ctx: Context, gens: seq<Generator>, root: Option<(string, InferType)>,
      next: Option<(string, InferType)>, local: Option<(string, InferType)>)
    requires gens != [] && Leads(ctx, gens[1..], next, local)
    requires forall env :: Rooted(env, root) ==> Enters(ctx, gens[0], env, next)
    ensures Leads(ctx, gens, root, local)
  {
    forall env | Rooted(env, root) ensures Opens(ctx, gens, env, local) {
      assert Enters(ctx, gens[0], env, next);
      OpensNext(ctx, gens, env, next, local);
    }
  }

  /** The clause binds an item that gives the next root its type. */
  ghost predicate Enters(ctx: Context, clause: Generator, env: Env, next: Option<(string, InferType)>) {
    exists item {:trigger LoopItem(ctx, env, clause.iter, item)} ::
      LoopItem(ctx, env, clause.iter, item) && Rooted(Entered(env, clause, item), next)
  }

  lemma OpensNext(ctx: Context, gens: seq<Generator>, env: Env, next: Option<(string, InferType)>, local: Option<(string, InferType)>)
    requires gens != [] && Enters(ctx, gens[0], env, next) && Leads(ctx, gens[1..], next, local)
    ensures Opens(ctx, gens, env, local)
  {
    var item :| LoopItem(ctx, env, gens[0].iter, item) && Rooted(Entered(env, gens[0], item), next);
    assert Opens(ctx, gens[1..], Entered(env, gens[0], item), local);
    var inner :| GenReach(ctx, gens[1..], Entered(env, gens[0], item), inner) && Rooted(inner, local);
    ReachNext(ctx, gens, env, item, inner);
  }

  lemma ReachNext(ctx: Context, gens: seq<Generator>, env: Env, item: Value, inner: Env)
    requires gens != [] && LoopItem(ctx, env, gens[0].iter, item)
    requires GenReach(ctx, gens[1..], Entered(env, gens[0], item), inner)
    ensures GenReach(ctx, gens, env, inner)
  {
  }

  lemma {:induction false} RootBefore(ctx: Context, g: Typing, clause: Generator, next: Option<(string, InferType)>)
    returns (root: Option<(string, InferType)>)
    requires RootIn(After(ctx, g, clause), next)
    ensures RootIn(g, root)
    ensures forall env :: Rooted(env, root) ==> Enters(ctx, clause, env, next)
    decreases clause
  {
    if next.Some? && clause.target == Some(next.value.0) {
      var t := next.value.1;
      InAfter(ctx, g, clause, next.value.0, t);
      root := TypeHasRoot(ctx, g, clause.iter, InferType(t.model, true));
      forall env | Rooted(env, root) ensures Enters(ctx, clause, env, next) {
        var w := Witness(InferType(t.model, true));
        assert CanEval(ctx, env, clause.iter, w) && ItemOf(w, Obj(t.model)) && Witness(t) == Obj(t.model);
        assert LoopItem(ctx, env, clause.iter, Witness(t)) && Rooted(Entered(env, clause, Witness(t)), next);
      }
    } else {
      root := next;
      forall env | Rooted(env, root) ensures Enters(ctx, clause, env, next) {
        var item := SomeItem(ctx, env, clause.iter);
        assert Rooted(Entered(env, clause, item), next);
      }
    }
  }

  lemma {:induction false} SiteHasRoot(ctx: Context, g: Typing, s: Site, t: InferType) returns (root: Option<(string, InferType)>)
    requires SiteHasType(ctx, g, s, t)
    ensures RootIn(g, root) && forall env :: Rooted(env, root) ==> SiteValue(ctx, env, s, Witness(t))
  {
    match s
    case Bind(_, value) => root := TypeHasRoot(ctx, g, value, t);
    case Loop(_, iterable) =>
      root := TypeHasRoot(ctx, g, iterable, InferType(t.model, true));
      forall env | Rooted(env, root) ensures LoopItem(ctx, env, iterable, Witness(t)) {
        var w := Witness(InferType(t.model, true));
        assert CanEval(ctx, env, iterable, w) && ItemOf(w, Witness(t));
      }
  }

  lemma ExtendRun(ctx: Context, fn: Function, run: seq<Env>, env: Env)
    requires IsRun(ctx, fn, run) && Step(ctx, fn, run[|run| - 1], env)
    ensures IsRun(ctx, fn, run + [env])
  {
    var longer := run + [env];
    forall i, j | 0 <= i < j == i + 1 < |longer| ensures Step(ctx, fn, longer[i], longer[j]) {
      if j < |run| {
        assert Step(ctx, fn, run[i], run[j]);
      }
    }
  }

  /** Every type the typing gives a name is one the name has at the end of some run. */
  lemma {:induction false} TypeHasRun(ctx: Context, fn: Function, k: nat, root: Option<(string, InferType)>) returns (run: seq<Env>)
    requires RootIn(Possible(ctx, fn, k), root)
    ensures IsRun(ctx, fn, run) && Rooted(run[|run| - 1], root)
    decreases k, 1
  {
    if root.None? || k == 0 {
      run := StartRun(ctx, fn, root);
    } else if RootIn(Possible(ctx, fn, k - 1), root) {
      run := TypeHasRun(ctx, fn, k - 1, root);
    } else {
      NewInRound(ctx, fn, k, root.value);
      run := TypeHasLaterRun(ctx, fn, k, root.value.0, root.value.1);
    }
  }

  lemma NewInRound(ctx: Context, fn: Function, k: nat, typed: (string, InferType))
    requires k > 0 && typed in Possible(ctx, fn, k) && typed !in Possible(ctx, fn, k - 1)
    ensures typed in NextTypes(ctx, fn, Possible(ctx, fn, k - 1))
  {
  }

  lemma StartRun(ctx: Context, fn: Function, root: Option<(string, InferType)>) returns (run: seq<Env>)
    requires RootIn(Possible(ctx, fn, 0), root)
    ensures IsRun(ctx, fn, run) && Rooted(run[|run| - 1], root)
  {
    run := [if root.None? then map[] else map[root.value.0 := Witness(root.value.1)]];
  }

  lemma {:induction false} TypeHasLaterRun(ctx: Context, fn: Function, k: nat, x: string, t: InferType) returns (run: seq<Env>)
    requires k > 0 && (x, t) in NextTypes(ctx, fn, Possible(ctx, fn, k - 1))
    ensures IsRun(ctx, fn, run) && Rooted(run[|run| - 1], Some((x, t)))
    decreases k, 0
  {
    var s, before := SiteOfType(ctx, fn, Possible(ctx, fn, k - 1), x, t);
    var shorter := TypeHasRun(ctx, fn, k - 1, before);
    run := BindAtSite(ctx, fn, shorter, s, t);
  }

  /** A type a round gives a name comes from a site, and goes back to a root before the round. */
  lemma SiteOfType(ctx: Context, fn: Function, g: Typing, x: string, t: InferType)
    returns (s: Site, before: Option<(string, InferType)>)
    requires (x, t) in NextTypes(ctx, fn, g)
    ensures s in FunctionSites(fn) && s.name == x && RootIn(g, before)
    ensures forall env :: Rooted(env, before) ==> SiteValue(ctx, env, s, Witness(t))
  {
    s :| s in FunctionSites(fn) && s.name == x && SiteHasType(ctx, g, s, t);
    before := SiteHasRoot(ctx, g, s, t);
  }

  lemma BindAtSite(ctx: Context, fn: Function, shorter: seq<Env>, s: Site, t: InferType) returns (run: seq<Env>)
    requires IsRun(ctx, fn, shorter) && s in FunctionSites(fn) && RichEnv(shorter[|shorter| - 1])
    requires SiteValue(ctx, shorter[|shorter| - 1], s, Witness(t))
    ensures IsRun(ctx, fn, run) && Rooted(run[|run| - 1], Some((s.name, t)))
  {
    var last := shorter[|shorter| - 1];
    var env := last[s.name := Witness(t)];
    SitesAreBindings(fn, s);
    ExtendRun(ctx, fn, shorter, env);
    run := shorter + [env];
  }

  /** The settled typing gives the base of node `n` an instance type with column `c`. */
  ghost predicate Typed(ctx: Context, fn: Function, n: Expr, m: string, c: string) {
    TypedReadAt(ctx, Types(ctx, fn), n, m, c)
  }

  lemma ReadsAreTyped(ctx: Context, g: Typing, env: Env, n: Expr, m: string, c: string)
    requires EnvTyped(ctx, g, env) && ReadsAt(ctx, env, n, m, c)
    ensures TypedReadAt(ctx, g, n, m, c)
  {
    Preservation(ctx, g, env, ReadBase(n, c).value, Obj(m));
  }

  lemma ReadableIsTyped(ctx: Context, fn: Function, n: Expr, m: string, c: string)
    requires CanReadAt(ctx, fn, n, m, c)
    ensures Typed(ctx, fn, n, m, c)
  {
    var run :| IsRun(ctx, fn, run) && ReadsAt(ctx, run[|run| - 1], n, m, c);
    RunReadsAreTyped(ctx, fn, run, n, m, c);
  }

  lemma RunReadsAreTyped(ctx: Context, fn: Function, run: seq<Env>, n: Expr, m: string, c: string)
    requires IsRun(ctx, fn, run) && ReadsAt(ctx, run[|run| - 1], n, m, c)
    ensures Typed(ctx, fn, n, m, c)
  {
    RunTyped(ctx, fn, run, |run| - 1);
    ReadsAreTyped(ctx, Types(ctx, fn), run[|run| - 1], n, m, c);
  }

  lemma TypedIsReadable(ctx: Context, fn: Function, k: nat, n: Expr, m: string, c: string)
    requires TypedReadAt(ctx, Possible(ctx, fn, k), n, m, c)
    ensures CanReadAt(ctx, fn, n, m, c)
  {
    var base, t := ReadBase(n, c).value, InferType(m, false);
    var root := TypeHasRoot(ctx, Possible(ctx, fn, k), base, t);
    var run := TypeHasRun(ctx, fn, k, root);
    var last := run[|run| - 1];
    assert Rooted(last, root) && CanEval(ctx, last, base, Witness(t)) && Witness(t) == Obj(m);
    assert ReadsAt(ctx, last, n, m, c);
  }

  /** A node can read column `c` off a `m` if and only if the settled typing gives its base the type of an `m`. */
  lemma ReadableExactlyWhenTyped(ctx: Context, fn: Function, n: Expr, m: string, c: string)
    ensures CanReadAt(ctx, fn, n, m, c) <==> Typed(ctx, fn, n, m, c)
  {
    if CanReadAt(ctx, fn, n, m, c) {
      ReadableIsTyped(ctx, fn, n, m, c);
    }
    if Typed(ctx, fn, n, m, c) {
      TypedIsReadable(ctx, fn, |Pairs(ctx, fn)|, n, m, c);
    }
  }

  /** A type found in any round is among the settled ones. */
  lemma TypedInSomeRound(ctx: Context, fn: Function, k: nat, n: Expr, m: string, c: string)
    requires TypedReadAt(ctx, Possible(ctx, fn, k), n, m, c)
    ensures Typed(ctx, fn, n, m, c)
  {
    TypedIsReadable(ctx, fn, k, n, m, c);
    ReadableExactlyWhenTyped(ctx, fn, n, m, c);
  }
}
