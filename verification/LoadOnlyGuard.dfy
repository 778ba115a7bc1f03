/**
  The static analyser behind the `load_only` guard: type inference of local names to a
  fixpoint, the closure of module-local calls, and the set of model columns read.

  What the code can read is settled by the runs of a function and their exact set-valued typing.
  The analyser keeps one type a name; the theorems say exactly when that misses nothing, and
  that a unit without violations then reads no deferred column.
 */
module LoadOnlyGuard {
  import opened Common
  import opened BuilderCode
  import opened BuilderRuns
  import opened Sets

  type Bindings = map<string, InferType>

  // ---------------------------------------------------------------- inference

  function Infer(ctx: Context, b: Bindings, e: Expr): Option<InferType>
    decreases e
  {
    match e
    case Name(id) => if id in b then Some(b[id]) else None
    case Attr(base, attr) =>
      (match Infer(ctx, b, base)
       case None => None
       case Some(t) =>
         if !t.many && t.model in ctx.metas && attr in ctx.metas[t.model].relationships
         then Some(ctx.metas[t.model].relationships[attr]) else None)
    case Call(func, args) =>
      if func in SEQUENCE_WRAPPERS && args != [] then
        (match Infer(ctx, b, args[0])
         case None => None
         case Some(t) => Some(InferType(t.model, true)))
      else if func in ctx.funcReturns then Some(ctx.funcReturns[func])
      else None
    case Or(values) => InferFirst(ctx, b, values)
    case IfExp(_, body, orelse) =>
      (match Infer(ctx, b, body)
       case Some(t) => Some(t)
       case None => Infer(ctx, b, orelse))
    case Subscript(base, _, _) =>
      (match Infer(ctx, b, base)
       case None => None
       case Some(t) => if t.many then Some(InferType(t.model, false)) else None)
    case Comp(kind, elt, _) =>
      if kind.DictComp? then None
      else
        (match Infer(ctx, b, elt)
         case None => None
         case Some(t) => if t.many then None else Some(InferType(t.model, true)))
    case StrLit(_) => None
    case Other(_) => None
  }

  /** The first operand that yields a type. */
  function InferFirst(ctx: Context, b: Bindings, es: seq<Expr>): (r: Option<InferType>)
    ensures r.None? ==> forall e :: e in es ==> Infer(ctx, b, e).None?
    ensures r.Some? ==> exists e :: e in es && Infer(ctx, b, e) == r
    decreases es
  {
    if es == [] then None
    else
      match Infer(ctx, b, es[0])
      case Some(t) => Some(t)
      case None => InferFirst(ctx, b, es[1..])
  }

  /** The type a site gives its name. */
  function SiteType(ctx: Context, b: Bindings, s: Site): Option<InferType> {
    match s
    case Bind(_, value) => Infer(ctx, b, value)
    case Loop(_, iterable) =>
      match Infer(ctx, b, iterable)
      case None => None
      case Some(t) => if t.many then Some(InferType(t.model, false)) else None
  }

  ghost predicate Stable(ctx: Context, b: Bindings, s: Site) {
    var t := SiteType(ctx, b, s);
    t.Some? ==> s.name in b && b[s.name] == t.value
  }

  ghost predicate Below(b: Bindings, g: Bindings) {
    forall x :: x in b ==> x in g && g[x] == b[x]
  }

  /** The branches of one node that have a type have the same one. */
  ghost predicate AgreeNode(ctx: Context, b: Bindings, e: Expr) {
    match e
    case Or(values) =>
      forall u, v :: u in values && v in values && Infer(ctx, b, u).Some? && Infer(ctx, b, v).Some?
        ==> Infer(ctx, b, u) == Infer(ctx, b, v)
    case IfExp(_, body, orelse) =>
      Infer(ctx, b, body).Some? && Infer(ctx, b, orelse).Some? ==> Infer(ctx, b, body) == Infer(ctx, b, orelse)
    case _ => true
  }

  ghost predicate Agree(ctx: Context, b: Bindings, e: Expr)
    decreases e
  {
    AgreeNode(ctx, b, e) && forall k :: k in Kids(e) ==> Agree(ctx, b, k)
  }

  /**
    A typing of the locals under which every binding site of a name and every branch agree.
   */
  ghost predicate Consistent(ctx: Context, g: Bindings, fn: Function) {
    && Below(fn.params, g)
    && (forall s :: s in FunctionSites(fn) ==> Stable(ctx, g, s))
    && (forall e :: e in TopExprs(fn.body) ==> Agree(ctx, g, e))
  }

  lemma {:induction false} InferBelow(ctx: Context, b: Bindings, g: Bindings, e: Expr)
    requires Below(b, g) && Agree(ctx, g, e)
    ensures Infer(ctx, b, e).Some? ==> Infer(ctx, b, e) == Infer(ctx, g, e)
    decreases e
  {
    forall k | k in Kids(e)
      ensures Infer(ctx, b, k).Some? ==> Infer(ctx, b, k) == Infer(ctx, g, k)
    {
      InferBelow(ctx, b, g, k);
    }
    match e
    case Attr(base, _) => assert base in Kids(e);
    case Call(func, args) => if args != [] { assert args[0] in Kids(e); }
    case IfExp(_, body, orelse) => assert body in Kids(e) && orelse in Kids(e);
    case Subscript(base, _, _) => assert base in Kids(e);
    case Comp(_, elt, _) => assert elt in Kids(e);
    case _ =>
  }

  lemma {:induction false} AgreeBelow(ctx: Context, b: Bindings, g: Bindings, e: Expr)
    requires Below(b, g) && Agree(ctx, g, e)
    ensures Agree(ctx, b, e)
    decreases e
  {
    forall k | k in Kids(e)
      ensures Agree(ctx, b, k) && (Infer(ctx, b, k).Some? ==> Infer(ctx, b, k) == Infer(ctx, g, k))
    {
      AgreeBelow(ctx, b, g, k);
      InferBelow(ctx, b, g, k);
    }
    match e
    case IfExp(_, body, orelse) => assert body in Kids(e) && orelse in Kids(e);
    case _ =>
  }

  lemma SiteTypeBelow(ctx: Context, b: Bindings, g: Bindings, s: Site)
    requires Below(b, g)
    requires Agree(ctx, g, if s.Bind? then s.value else s.iterable)
    ensures SiteType(ctx, b, s).Some? ==> SiteType(ctx, b, s) == SiteType(ctx, g, s)
  {
    InferBelow(ctx, b, g, if s.Bind? then s.value else s.iterable);
  }

  lemma {:induction false} AgreeNodes(ctx: Context, b: Bindings, e: Expr, n: Expr)
    requires Agree(ctx, b, e) && n in Nodes(e)
    ensures Agree(ctx, b, n)
    decreases e
  {
    if n != e {
      var k :| k in Kids(e) && n in Nodes(k);
      AgreeNodes(ctx, b, k, n);
    }
  }

  // ---------------------------------------------------------------- when one type a name is enough

  /** A slice handed straight to `list`, `sorted` and the like, which make it a collection again. */
  predicate WrappedSlice(e: Expr, k: Expr) {
    e.Call? && e.func in SEQUENCE_WRAPPERS && e.args != [] && k == e.args[0] && k.Subscript? && k.slice
  }

  /** No slice of a typed collection is used otherwise. */
  ghost predicate Plain(ctx: Context, b: Bindings, e: Expr)
    decreases e
  {
    && (e.Subscript? && e.slice ==> Infer(ctx, b, e.base).None?)
    && forall k :: k in Kids(e) ==> Plain(ctx, b, k) || (WrappedSlice(e, k) && forall j :: j in Kids(k) ==> Plain(ctx, b, j))
  }

  /** All comprehension targets inside `e` are bound as the analysis says. */
  ghost predicate Settled(ctx: Context, b: Bindings, e: Expr) {
    forall n, s :: n in Nodes(e) && n.Comp? && s in GenSites(n.gens) ==> Stable(ctx, b, s)
  }

  /** The typing gives each name the one type it is bound to. */
  ghost predicate OneType(g: Typing, b: Bindings) {
    forall x, t :: (x, t) in g ==> x in b && b[x] == t
  }

  lemma SettledKid(ctx: Context, b: Bindings, e: Expr, k: Expr)
    requires Settled(ctx, b, e) && k in Kids(e)
    ensures Settled(ctx, b, k)
  {
    forall n | n in Nodes(k) ensures n in Nodes(e) {}
  }

  /** Under such a typing the types of an expression are the one inferred. */
  lemma {:induction false} TypesAreInferred(ctx: Context, b: Bindings, g: Typing, e: Expr, t: InferType)
    requires OneType(g, b) && Agree(ctx, b, e) && Plain(ctx, b, e) && Settled(ctx, b, e) && HasType(ctx, g, e, t)
    ensures Infer(ctx, b, e) == Some(t)
    decreases e, 2
  {
    match e
    case Name(_) =>
    case StrLit(_) =>
    case Other(_) =>
    case Attr(base, attr) =>
      var m :| HasType(ctx, g, base, InferType(m, false)) && RelatedBy(ctx, m, attr, t);
      KidTypesAreInferred(ctx, b, g, e, base, InferType(m, false));
    case Call(func, args) =>
      if func in SEQUENCE_WRAPPERS && args != [] {
        assert args[0] in Kids(e);
        if Plain(ctx, b, args[0]) {
          KidTypesAreInferred(ctx, b, g, e, args[0], t);
        } else {
          SettledKid(ctx, b, e, args[0]);
          assert Agree(ctx, b, args[0]) && args[0].base in Kids(args[0]);
          KidTypesAreInferred(ctx, b, g, args[0], args[0].base, t);
        }
      }
    case Or(values) =>
      var k :| k in values && HasType(ctx, g, k, t);
      KidTypesAreInferred(ctx, b, g, e, k, t);
    case IfExp(_, body, orelse) =>
      assert body in Kids(e) && orelse in Kids(e);
      KidTypesAreInferred(ctx, b, g, e, if HasType(ctx, g, body, t) then body else orelse, t);
    case Subscript(base, _, slice) =>
      assert base in Kids(e);
      KidTypesAreInferred(ctx, b, g, e, base, InferType(t.model, true));
    case Comp(kind, elt, gens) =>
      CompTypesAreInferred(ctx, b, g, e, t);
  }

  lemma {:induction false} KidTypesAreInferred(ctx: Context, b: Bindings, g: Typing, e: Expr, k: Expr, t: InferType)
    requires k in Kids(e) && OneType(g, b) && Agree(ctx, b, e) && Plain(ctx, b, k) && Settled(ctx, b, e) && HasType(ctx, g, k, t)
    ensures Infer(ctx, b, k) == Some(t)
    decreases e, 1
  {
    SettledKid(ctx, b, e, k);
    TypesAreInferred(ctx, b, g, k, t);
  }

  lemma {:induction false} CompTypesAreInferred(ctx: Context, b: Bindings, g: Typing, e: Expr, t: InferType)
    requires OneType(g, b) && Agree(ctx, b, e) && Plain(ctx, b, e) && Settled(ctx, b, e) && e.Comp? && HasType(ctx, g, e, t)
    ensures Infer(ctx, b, e) == Some(t)
    decreases e, 1
  {
    assert e in Nodes(e);
    forall c | c in e.gens ensures ClauseInferred(ctx, b, e, c) {
      assert c.iter in Kids(e);
      SettledKid(ctx, b, e, c.iter);
    }
    InsideIsOneType(ctx, b, g, e, e.gens);
    assert e.elt in Kids(e);
    SettledKid(ctx, b, e, e.elt);
    TypesAreInferred(ctx, b, Inside(ctx, g, e.gens), e.elt, InferType(t.model, false));
  }

  /** The iterable of a clause meets the conditions, and its target is bound to the element type. */
  ghost predicate ClauseInferred(ctx: Context, b: Bindings, whole: Expr, c: Generator) {
    && c.iter < whole && Agree(ctx, b, c.iter) && Plain(ctx, b, c.iter) && Settled(ctx, b, c.iter)
    && (c.target.Some? ==> Stable(ctx, b, Loop(c.target.value, c.iter)))
  }

  lemma {:induction false} InsideIsOneType(ctx: Context, b: Bindings, g: Typing, whole: Expr, gens: seq<Generator>)
    requires OneType(g, b) && forall c :: c in gens ==> ClauseInferred(ctx, b, whole, c)
    ensures OneType(Inside(ctx, g, gens), b)
    decreases whole, 0, |gens|
  {
    if gens != [] {
      var c := gens[0];
      assert c in gens;
      var after := After(ctx, g, c);
      forall x, t | (x, t) in after ensures x in b && b[x] == t {
        InAfter(ctx, g, c, x, t);
        if c.target == Some(x) {
          TypesAreInferred(ctx, b, g, c.iter, InferType(t.model, true));
          assert Stable(ctx, b, Loop(x, c.iter));
        }
      }
      InsideIsOneType(ctx, b, after, whole, gens[1..]);
    }
  }

  lemma {:induction false} PlainBelow(ctx: Context, b: Bindings, g: Bindings, e: Expr)
    requires Below(b, g) && Agree(ctx, g, e) && Plain(ctx, g, e)
    ensures Plain(ctx, b, e)
    decreases e
  {
    if e.Subscript? {
      assert e.base in Kids(e);
      InferBelow(ctx, b, g, e.base);
    }
    forall k | k in Kids(e)
      ensures Plain(ctx, b, k) || (WrappedSlice(e, k) && forall j :: j in Kids(k) ==> Plain(ctx, b, j))
    {
      if Plain(ctx, g, k) {
        PlainBelow(ctx, b, g, k);
      } else {
        forall j | j in Kids(k) ensures Plain(ctx, b, j) {
          PlainBelow(ctx, b, g, j);
        }
      }
    }
  }

  /** Every node is plain but the slices. */
  lemma {:induction false} PlainNodes(ctx: Context, b: Bindings, e: Expr, n: Expr)
    requires Plain(ctx, b, e) && n in Nodes(e)
    ensures Plain(ctx, b, n) || n.Subscript?
    decreases e
  {
    if n != e {
      var k :| k in Kids(e) && n in Nodes(k);
      if Plain(ctx, b, k) {
        PlainNodes(ctx, b, k, n);
      } else if n != k {
        var j :| j in Kids(k) && n in Nodes(j);
        PlainNodes(ctx, b, j, n);
      }
    }
  }

  /** What the end of the fixpoint gives: the sites are stable, the branches agree, no slice is in the way. */
  ghost predicate Resolved(ctx: Context, b: Bindings, fn: Function) {
    && Below(fn.params, b)
    && (forall s :: s in FunctionSites(fn) ==> Stable(ctx, b, s))
    && (forall e :: e in TopExprs(fn.body) ==> Agree(ctx, b, e) && Plain(ctx, b, e))
  }

  /** An expression the conditions hold of. */
  ghost predicate Sound(ctx: Context, b: Bindings, e: Expr) {
    Agree(ctx, b, e) && Plain(ctx, b, e) && Settled(ctx, b, e)
  }

  lemma NodeSettled(ctx: Context, b: Bindings, fn: Function, n: Expr)
    requires Resolved(ctx, b, fn) && n in FunctionNodes(fn)
    ensures Agree(ctx, b, n) && Settled(ctx, b, n) && (Plain(ctx, b, n) || n.Subscript?)
  {
    var e :| e in TopExprs(fn.body) && n in Nodes(e);
    AgreeNodes(ctx, b, e, n);
    PlainNodes(ctx, b, e, n);
    forall m, s | m in Nodes(n) && m.Comp? && s in GenSites(m.gens) ensures Stable(ctx, b, s) {
      NodesNest(e, n, m);
      assert m in FunctionNodes(fn);
      assert s in FunctionSites(fn);
    }
  }

  lemma KidSound(ctx: Context, b: Bindings, n: Expr, k: Expr)
    requires Sound(ctx, b, n) && k in Kids(n) && !WrappedSlice(n, k)
    ensures Sound(ctx, b, k)
  {
    SettledKid(ctx, b, n, k);
  }

  lemma SiteSound(ctx: Context, b: Bindings, fn: Function, s: Site)
    requires Resolved(ctx, b, fn) && s in FunctionSites(fn)
    ensures Sound(ctx, b, SiteExpr(s))
  {
    SiteExprIsNode(fn, s);
    NodeSettled(ctx, b, fn, SiteExpr(s));
    if s in StmtSites(fn.body) {
      StmtSiteExprs(fn.body, s);
    } else {
      var n :| n in FunctionNodes(fn) && n.Comp? && s in GenSites(n.gens);
      ClauseSound(ctx, b, fn, n, s);
    }
  }

  lemma ClauseSound(ctx: Context, b: Bindings, fn: Function, n: Expr, s: Site)
    requires Resolved(ctx, b, fn) && n in FunctionNodes(fn) && n.Comp? && s in GenSites(n.gens)
    ensures Sound(ctx, b, SiteExpr(s))
  {
    NodeSettled(ctx, b, fn, n);
    assert SiteExpr(s) in Kids(n);
    KidSound(ctx, b, n, SiteExpr(s));
  }

  lemma SiteTypesAreInferred(ctx: Context, b: Bindings, fn: Function, g: Typing, s: Site, t: InferType)
    requires Resolved(ctx, b, fn) && OneType(g, b) && s in FunctionSites(fn) && SiteHasType(ctx, g, s, t)
    ensures s.name in b && b[s.name] == t
  {
    SiteSound(ctx, b, fn, s);
    TypesAreInferred(ctx, b, g, SiteExpr(s), if s.Bind? then t else InferType(t.model, true));
    assert Stable(ctx, b, s);
  }

  lemma RoundIsOneType(ctx: Context, b: Bindings, fn: Function, g: Typing)
    requires Resolved(ctx, b, fn) && OneType(g, b)
    ensures OneType(NextTypes(ctx, fn, g), b)
  {
    forall x, t | (x, t) in NextTypes(ctx, fn, g) ensures x in b && b[x] == t {
      var s :| s in FunctionSites(fn) && s.name == x && SiteHasType(ctx, g, s, t);
      SiteTypesAreInferred(ctx, b, fn, g, s, t);
    }
  }

  /** No name ever has another type than the one it is bound to. */
  lemma {:induction false} PossibleIsOneType(ctx: Context, b: Bindings, fn: Function, k: nat)
    requires Resolved(ctx, b, fn)
    ensures OneType(Possible(ctx, fn, k), b)
  {
    if k > 0 {
      PossibleIsOneType(ctx, b, fn, k - 1);
      RoundIsOneType(ctx, b, fn, Possible(ctx, fn, k - 1));
    }
  }

  // ---------------------------------------------------------------- collecting reads

  /** The column a node is recorded as reading. */
  function ReadOf(ctx: Context, b: Bindings, n: Expr): Option<(string, string)> {
    if n.Attr? then
      (match Infer(ctx, b, n.base)
       case None => None
       case Some(t) =>
         if !t.many && t.model in ctx.metas && n.attr in ctx.metas[t.model].columns
         then Some((t.model, n.attr)) else None)
    else if n.Call? && n.func == "getattr" && |n.args| >= 2 && n.args[1].StrLit? then
      (match Infer(ctx, b, n.args[0])
       case None => None
       case Some(t) =>
         if !t.many && t.model in ctx.metas && n.args[1].text in ctx.metas[t.model].columns
         then Some((t.model, n.args[1].text)) else None)
    else None
  }

  /** A node is recorded as the read of the one type inferred for its base. */
  lemma ReadOfBase(ctx: Context, b: Bindings, n: Expr, m: string, c: string)
    ensures ReadOf(ctx, b, n) == Some((m, c)) <==>
      HasColumn(ctx, m, c) && ReadBase(n, c).Some? && Infer(ctx, b, ReadBase(n, c).value) == Some(InferType(m, false))
  {
  }

  /** A column read off an instance is recorded at the node that reads it. */
  lemma ReadIsRecorded(ctx: Context, b: Bindings, fn: Function, n: Expr, m: string, c: string)
    requires Resolved(ctx, b, fn) && n in FunctionNodes(fn) && CanReadAt(ctx, fn, n, m, c)
    ensures ReadOf(ctx, b, n) == Some((m, c))
  {
    ReadableExactlyWhenTyped(ctx, fn, n, m, c);
    PossibleIsOneType(ctx, b, fn, |Pairs(ctx, fn)|);
    NodeSettled(ctx, b, fn, n);
    TypedIsInferred(ctx, b, Types(ctx, fn), n, m, c);
    ReadOfBase(ctx, b, n, m, c);
  }

  lemma TypedIsInferred(ctx: Context, b: Bindings, g: Typing, n: Expr, m: string, c: string)
    requires OneType(g, b) && TypedReadAt(ctx, g, n, m, c)
    requires Agree(ctx, b, n) && Settled(ctx, b, n) && (Plain(ctx, b, n) || n.Subscript?)
    ensures Infer(ctx, b, ReadBase(n, c).value) == Some(InferType(m, false))
  {
    var base := ReadBase(n, c).value;
    assert base in Kids(n) && !WrappedSlice(n, base);
    KidSound(ctx, b, n, base);
    TypesAreInferred(ctx, b, g, base, InferType(m, false));
  }

  /** A node misses nothing exactly when every instance type its base may have, with the column, is the inferred one. */
  lemma NodeMissesNothingExactlyWhen(ctx: Context, b: Bindings, fn: Function, n: Expr)
    ensures (forall m, c :: CanReadAt(ctx, fn, n, m, c) ==> ReadOf(ctx, b, n) == Some((m, c))) <==>
      (forall m, c :: Typed(ctx, fn, n, m, c) ==> Infer(ctx, b, ReadBase(n, c).value) == Some(InferType(m, false)))
  {
    forall m, c ensures CanReadAt(ctx, fn, n, m, c) <==> Typed(ctx, fn, n, m, c) {
      ReadableExactlyWhenTyped(ctx, fn, n, m, c);
    }
    forall m, c | Typed(ctx, fn, n, m, c)
      ensures HasColumn(ctx, m, c) && ReadBase(n, c).Some?
      ensures ReadOf(ctx, b, n) == Some((m, c)) <==> Infer(ctx, b, ReadBase(n, c).value) == Some(InferType(m, false))
    {
      ReadOfBase(ctx, b, n, m, c);
    }
  }

  function Rebind(ctx: Context, b: Bindings, s: Site): Bindings {
    match SiteType(ctx, b, s)
    case None => b
    case Some(t) => b[s.name := t]
  }

  /** One round: every site in turn. */
  function Round(ctx: Context, b: Bindings, sites: seq<Site>): Bindings {
    if sites == [] then b
    else Rebind(ctx, Round(ctx, b, sites[..|sites| - 1]), sites[|sites| - 1])
  }

  function Rounds(ctx: Context, b: Bindings, sites: seq<Site>, k: nat): Bindings {
    if k == 0 then b else Round(ctx, Rounds(ctx, b, sites, k - 1), sites)
  }

  lemma {:induction false} RoundsSettle(ctx: Context, b: Bindings, sites: seq<Site>, k: nat, n: nat)
    requires k <= n && Round(ctx, Rounds(ctx, b, sites, k), sites) == Rounds(ctx, b, sites, k)
    ensures Rounds(ctx, b, sites, n) == Rounds(ctx, b, sites, k)
  {
    if k < n {
      RoundsSettle(ctx, b, sites, k, n - 1);
    }
  }

  ghost predicate Between(seeds: Bindings, b: Bindings, g: Bindings) {
    Below(seeds, b) && Below(b, g)
  }

  /** Under the typing `g` this site binds its local to the local's type, and its branches agree. */
  ghost predicate SiteAgrees(ctx: Context, g: Bindings, s: Site) {
    Stable(ctx, g, s) && Agree(ctx, g, SiteExpr(s))
  }

  ghost predicate AllAgree(ctx: Context, seeds: Bindings, g: Bindings, sites: seq<Site>) {
    Below(seeds, g) && forall s :: s in sites ==> SiteAgrees(ctx, g, s)
  }

  /** Under agreeing sites a site only ever adds a local that had no type, with the agreed one. */
  lemma RebindGrows(ctx: Context, b: Bindings, g: Bindings, s: Site)
    requires SiteAgrees(ctx, g, s) && Below(b, g)
    ensures var r := Rebind(ctx, b, s);
      && Below(b, r) && Below(r, g)
      && if r == b then Stable(ctx, b, s) else s.name !in b && r.Keys == b.Keys + {s.name}
  {
    SiteTypeBelow(ctx, b, g, s);
    var t := SiteType(ctx, b, s);
    if t.Some? && s.name in b {
      assert b[s.name := t.value] == b;
    }
  }

  lemma BelowBoth(a: Bindings, b: Bindings)
    requires Below(a, b) && Below(b, a)
    ensures a == b
  {
  }

  lemma BelowTrans(a: Bindings, b: Bindings, c: Bindings)
    requires Below(a, b) && Below(b, c)
    ensures Below(a, c)
  {
  }

  /** So does a round; one that changes nothing leaves every site as it would be. */
  lemma {:induction false} RoundGrows(ctx: Context, b: Bindings, g: Bindings, sites: seq<Site>)
    requires Below(b, g) && forall s :: s in sites ==> SiteAgrees(ctx, g, s)
    ensures var r := Round(ctx, b, sites);
      && Below(b, r) && Below(r, g) && r.Keys <= b.Keys + SiteNames(sites)
      && (r == b ==> forall s :: s in sites ==> Stable(ctx, b, s))
  {
    if sites != [] {
      var before, last := sites[..|sites| - 1], sites[|sites| - 1];
      assert sites == before + [last] && last in sites;
      RoundGrows(ctx, b, g, before);
      var mid := Round(ctx, b, before);
      RebindGrows(ctx, mid, g, last);
      var r := Rebind(ctx, mid, last);
      BelowTrans(b, mid, r);
      if r == b {
        BelowBoth(mid, b);
      }
    }
  }

  lemma {:induction false} RoundsGrow(ctx: Context, b: Bindings, g: Bindings, sites: seq<Site>, k: nat)
    requires Below(b, g) && forall s :: s in sites ==> SiteAgrees(ctx, g, s)
    ensures var r := Rounds(ctx, b, sites, k);
      && Below(b, r) && Below(r, g) && r.Keys <= b.Keys + SiteNames(sites)
  {
    if k > 0 {
      RoundsGrow(ctx, b, g, sites, k - 1);
      RoundGrows(ctx, Rounds(ctx, b, sites, k - 1), g, sites);
      BelowTrans(b, Rounds(ctx, b, sites, k - 1), Rounds(ctx, b, sites, k));
    }
  }

  lemma BelowOrMore(a: Bindings, b: Bindings)
    requires Below(a, b)
    ensures a == b || |a.Keys| < |b.Keys|
  {
    assert a.Keys <= b.Keys;
    SubsetSize(a.Keys, b.Keys);
    if |a.Keys| == |b.Keys| {
      SameSize(a.Keys, b.Keys);
      BelowBoth(a, b);
    }
  }

  /** A round that changes something types one more local. */
  lemma RoundFixedOrMore(ctx: Context, b: Bindings, g: Bindings, sites: seq<Site>)
    requires Below(b, g) && forall s :: s in sites ==> SiteAgrees(ctx, g, s)
    ensures Round(ctx, b, sites) == b || |b.Keys| < |Round(ctx, b, sites).Keys|
  {
    RoundGrows(ctx, b, g, sites);
    BelowOrMore(b, Round(ctx, b, sites));
  }

  lemma NextRoundIs(ctx: Context, b: Bindings, sites: seq<Site>, k: nat)
    ensures Rounds(ctx, b, sites, k + 1) == Round(ctx, Rounds(ctx, b, sites, k), sites)
  {
  }

  lemma NextFixedOrMore(ctx: Context, b: Bindings, g: Bindings, sites: seq<Site>, k: nat)
    requires Below(b, g) && forall s :: s in sites ==> SiteAgrees(ctx, g, s)
    ensures || Rounds(ctx, b, sites, k + 1) == Rounds(ctx, b, sites, k)
            || |Rounds(ctx, b, sites, k).Keys| < |Rounds(ctx, b, sites, k + 1).Keys|
  {
    RoundsGrow(ctx, b, g, sites, k);
    RoundFixedOrMore(ctx, Rounds(ctx, b, sites, k), g, sites);
    NextRoundIs(ctx, b, sites, k);
  }

  lemma FixedOn(ctx: Context, b: Bindings, sites: seq<Site>, k: nat)
    requires Rounds(ctx, b, sites, k + 1) == Rounds(ctx, b, sites, k)
    ensures Rounds(ctx, b, sites, k + 2) == Rounds(ctx, b, sites, k + 1)
  {
    NextRoundIs(ctx, b, sites, k);
    NextRoundIs(ctx, b, sites, k + 1);
  }

  lemma {:induction false} FixedOrMoreTyped(ctx: Context, b: Bindings, g: Bindings, sites: seq<Site>, k: nat)
    requires Below(b, g) && forall s :: s in sites ==> SiteAgrees(ctx, g, s)
    ensures Rounds(ctx, b, sites, k + 1) == Rounds(ctx, b, sites, k) || |Rounds(ctx, b, sites, k + 1).Keys| > |b.Keys| + k
  {
    NextFixedOrMore(ctx, b, g, sites, k);
    if k > 0 {
      FixedOrMoreTyped(ctx, b, g, sites, k - 1);
      if Rounds(ctx, b, sites, k) == Rounds(ctx, b, sites, k - 1) {
        FixedOn(ctx, b, sites, k - 1);
      }
    }
  }

  lemma {:induction false} SiteNamesCount(sites: seq<Site>)
    ensures |SiteNames(sites)| <= |sites|
  {
    if sites != [] {
      SiteNamesCount(sites[1..]);
      assert SiteNames(sites) == {sites[0].name} + SiteNames(sites[1..]);
    }
  }

  /** The bound never cuts the fixpoint short when some typing makes the sites agree. */
  lemma FixpointReached(ctx: Context, seeds: Bindings, g: Bindings, sites: seq<Site>)
    requires AllAgree(ctx, seeds, g, sites)
    ensures var b := Rounds(ctx, seeds, sites, |sites| + 1);
      Between(seeds, b, g) && forall s :: s in sites ==> Stable(ctx, b, s)
  {
    var n := |sites|;
    var r := Rounds(ctx, seeds, sites, n);
    RoundsGrow(ctx, seeds, g, sites, n);
    FixedOrMoreTyped(ctx, seeds, g, sites, n);
    RoundGrows(ctx, r, g, sites);
    FewTyped(ctx, seeds, g, sites);
    assert Round(ctx, r, sites) == r;
  }

  lemma FewTyped(ctx: Context, seeds: Bindings, g: Bindings, sites: seq<Site>)
    requires AllAgree(ctx, seeds, g, sites)
    ensures |Rounds(ctx, seeds, sites, |sites| + 1).Keys| <= |seeds.Keys| + |sites|
  {
    RoundsGrow(ctx, seeds, g, sites, |sites| + 1);
    SiteNamesCount(sites);
    SubsetSize(Rounds(ctx, seeds, sites, |sites| + 1).Keys, seeds.Keys + SiteNames(sites));
    UnionSize(seeds.Keys, SiteNames(sites));
  }

  class ReadCollector {
    const ctx: Context
    var bindings: Bindings

    constructor (ctx: Context, seeds: Bindings)
      ensures this.ctx == ctx && bindings == seeds
    {
      this.ctx := ctx;
      bindings := seeds;
    }

    /** One site of a round; without a change it would bind the local as it is. */
    method VisitSite(s: Site) returns (changed: bool)
      modifies this
      ensures bindings == Rebind(ctx, old(bindings), s) && (changed <==> bindings != old(bindings))
      ensures !changed ==> Stable(ctx, bindings, s)
    {
      var inferred := SiteType(ctx, bindings, s);
      changed := inferred.Some? && (s.name !in bindings || bindings[s.name] != inferred.value);
      if changed {
        bindings := bindings[s.name := inferred.value];
      } else {
        assert inferred.Some? ==> bindings[s.name := inferred.value] == bindings;
      }
    }

    /** One round. */
    method VisitSites(sites: seq<Site>) returns (changed: bool)
      modifies this
      ensures bindings == Round(ctx, old(bindings), sites)
      ensures !changed ==> bindings == old(bindings) && forall s :: s in sites ==> Stable(ctx, bindings, s)
    {
      changed := false;
      ghost var before := bindings;
      for i := 0 to |sites|
        invariant bindings == Round(ctx, before, sites[..i])
        invariant !changed ==> bindings == before && forall j :: 0 <= j < i ==> Stable(ctx, bindings, sites[j])
      {
        assert sites[..i + 1][..i] == sites[..i];
        var c := VisitSite(sites[i]);
        changed := changed || c;
      }
      assert sites[..|sites|] == sites;
    }

    /**
      The bounded fixpoint over the binding sites, in any order of the sites.  When some typing
      of the locals makes the sites agree, the bound never cuts it short: it ends in bindings
      no site would change, and they lie below every such typing.
     */
    method ResolveBindings(sites: seq<Site>)
      modifies this
      ensures bindings == Rounds(ctx, old(bindings), sites, |sites| + 1)
      ensures forall g :: AllAgree(ctx, old(bindings), g, sites) ==>
        Between(old(bindings), bindings, g) && forall s :: s in sites ==> Stable(ctx, bindings, s)
    {
      ghost var seeds := bindings;
      for round := 0 to |sites| + 1
        invariant bindings == Rounds(ctx, seeds, sites, round)
      {
        var changed := VisitSites(sites);
        if !changed {
          RoundsSettle(ctx, seeds, sites, round, |sites| + 1);
          break;
        }
      }
      forall g | AllAgree(ctx, seeds, g, sites)
        ensures Between(seeds, bindings, g) && forall s :: s in sites ==> Stable(ctx, bindings, s)
      {
        FixpointReached(ctx, seeds, g, sites);
      }
    }

    /** The reads recorded at the given nodes under the current bindings, and nothing else. */
    method Visit(nodes: seq<Expr>) returns (found: set<(string, string)>)
      ensures forall r :: r in found <==> Records(ctx, bindings, nodes, r)
    {
      found := {};
      for i := 0 to |nodes|
        invariant forall r :: r in found <==> Records(ctx, bindings, nodes[..i], r)
      {
        assert nodes[..i + 1] == nodes[..i] + [nodes[i]];
        var read := ReadOf(ctx, bindings, nodes[i]);
        if read.Some? {
          found := found + {read.value};
        }
      }
      assert nodes[..|nodes|] == nodes;
    }

    /**
      The columns read inside `fn`, given bindings seeded with its parameter types.  They hold every
      column a run can read exactly when no read of the set-valued typing is missed, as when the
      sites and branches agree and slices of typed collections only go to a sequence wrapper.
     */
    method Collect(fn: Function) returns (found: set<(string, string)>)
      requires bindings == fn.params
      modifies this
      ensures bindings == Final(ctx, fn)
      ensures forall r :: r in found <==> Records(ctx, bindings, FunctionNodes(fn), r)
      ensures (forall m, c :: CanRead(ctx, fn, m, c) ==> (m, c) in found) <==> NothingMissed(ctx, fn)
      ensures Agreeing(ctx, fn) ==> NothingMissed(ctx, fn)
      ensures forall g :: Consistent(ctx, g, fn) ==> forall r :: r in found ==> Records(ctx, g, FunctionNodes(fn), r)
    {
      ResolveBindings(FunctionSites(fn));
      found := Visit(FunctionNodes(fn));
      CompleteExactlyWhen(ctx, fn);
      if Agreeing(ctx, fn) {
        AgreeingMissesNothing(ctx, fn);
      }
      forall g | Consistent(ctx, g, fn) ensures forall r :: r in found ==> Records(ctx, g, FunctionNodes(fn), r) {
        FinalIsStable(ctx, g, fn);
        RecordsBelow(ctx, bindings, g, fn);
      }
    }
  }

  /** The bindings a function ends up with. */
  function Final(ctx: Context, fn: Function): Bindings {
    Rounds(ctx, fn.params, FunctionSites(fn), |FunctionSites(fn)| + 1)
  }

  /** The reads `Collect` records for a function. */
  ghost predicate Collected(ctx: Context, fn: Function, m: string, c: string) {
    Records(ctx, Final(ctx, fn), FunctionNodes(fn), (m, c))
  }

  /** Whatever instance type the set-valued typing gives the base of a read, that read is recorded. */
  ghost predicate NothingMissed(ctx: Context, fn: Function) {
    forall n, m, c :: n in FunctionNodes(fn) && Typed(ctx, fn, n, m, c) ==> Collected(ctx, fn, m, c)
  }

  ghost predicate SlicesWrapped(ctx: Context, g: Bindings, fn: Function) {
    forall e :: e in TopExprs(fn.body) ==> Plain(ctx, g, e)
  }

  /** The collected columns are all that runs can read exactly when the set-valued typing finds no other. */
  lemma CompleteExactlyWhen(ctx: Context, fn: Function)
    ensures (forall m, c :: CanRead(ctx, fn, m, c) ==> Collected(ctx, fn, m, c)) <==> NothingMissed(ctx, fn)
  {
    forall n, m, c ensures CanReadAt(ctx, fn, n, m, c) <==> Typed(ctx, fn, n, m, c) {
      ReadableExactlyWhenTyped(ctx, fn, n, m, c);
    }
    if NothingMissed(ctx, fn) {
      forall m, c | CanRead(ctx, fn, m, c) ensures Collected(ctx, fn, m, c) {
        var n := ReadingNode(ctx, fn, m, c);
      }
    }
    if forall m, c :: CanRead(ctx, fn, m, c) ==> Collected(ctx, fn, m, c) {
      forall n, m, c | n in FunctionNodes(fn) && Typed(ctx, fn, n, m, c) ensures Collected(ctx, fn, m, c) {
        NodeCanRead(ctx, fn, n, m, c);
      }
    }
  }

  /** Some node of the list is recorded as read `r`. */
  ghost predicate Records(ctx: Context, b: Bindings, nodes: seq<Expr>, r: (string, string)) {
    exists n :: n in nodes && ReadOf(ctx, b, n) == Some(r)
  }

  lemma ConsistentSites(ctx: Context, g: Bindings, fn: Function)
    requires Consistent(ctx, g, fn)
    ensures forall s :: s in FunctionSites(fn) ==> Stable(ctx, g, s) && Agree(ctx, g, SiteExpr(s))
  {
    forall s | s in FunctionSites(fn) ensures Agree(ctx, g, SiteExpr(s)) {
      SiteExprIsNode(fn, s);
      var e :| e in TopExprs(fn.body) && SiteExpr(s) in Nodes(e);
      AgreeNodes(ctx, g, e, SiteExpr(s));
    }
  }

  lemma RecordsBelow(ctx: Context, b: Bindings, g: Bindings, fn: Function)
    requires Below(b, g) && Consistent(ctx, g, fn)
    ensures forall r :: Records(ctx, b, FunctionNodes(fn), r) ==> Records(ctx, g, FunctionNodes(fn), r)
  {
    forall n | n in FunctionNodes(fn) && ReadOf(ctx, b, n).Some?
      ensures ReadOf(ctx, g, n) == ReadOf(ctx, b, n)
    {
      var e :| e in TopExprs(fn.body) && n in Nodes(e);
      AgreeNodes(ctx, g, e, n);
      var base := if n.Attr? then n.base else n.args[0];
      assert base in Kids(n);
      InferBelow(ctx, b, g, base);
    }
  }

  /** Stable bindings below an agreed typing record every column any run can read. */
  lemma CollectIsComplete(ctx: Context, b: Bindings, g: Bindings, fn: Function)
    requires Consistent(ctx, g, fn) && SlicesWrapped(ctx, g, fn) && Below(fn.params, b) && Below(b, g)
    requires forall s :: s in FunctionSites(fn) ==> Stable(ctx, b, s)
    ensures forall m, c :: CanRead(ctx, fn, m, c) ==> Records(ctx, b, FunctionNodes(fn), (m, c))
  {
    forall e | e in TopExprs(fn.body) ensures Agree(ctx, b, e) && Plain(ctx, b, e) {
      AgreeBelow(ctx, b, g, e);
      PlainBelow(ctx, b, g, e);
    }
    forall m, c | CanRead(ctx, fn, m, c) ensures Records(ctx, b, FunctionNodes(fn), (m, c)) {
      var n := ReadingNode(ctx, fn, m, c);
      ReadIsRecorded(ctx, b, fn, n, m, c);
    }
  }

  /** The sites and branches agree on some typing, under which slices of typed collections only go to a wrapper. */
  ghost predicate Agreeing(ctx: Context, fn: Function) {
    exists g :: Consistent(ctx, g, fn) && SlicesWrapped(ctx, g, fn)
  }

  lemma FinalIsStable(ctx: Context, g: Bindings, fn: Function)
    requires Consistent(ctx, g, fn)
    ensures Below(fn.params, Final(ctx, fn)) && Below(Final(ctx, fn), g)
    ensures forall s :: s in FunctionSites(fn) ==> Stable(ctx, Final(ctx, fn), s)
  {
    ConsistentSites(ctx, g, fn);
    FixpointReached(ctx, fn.params, g, FunctionSites(fn));
  }

  /** Whether there is such a typing shows in the bindings the analysis itself ends with. */
  lemma AgreeingExactlyWhen(ctx: Context, fn: Function)
    ensures Agreeing(ctx, fn) <==> Resolved(ctx, Final(ctx, fn), fn)
  {
    var b := Final(ctx, fn);
    if g :| Consistent(ctx, g, fn) && SlicesWrapped(ctx, g, fn) {
      FinalIsStable(ctx, g, fn);
      forall e | e in TopExprs(fn.body) ensures Agree(ctx, b, e) && Plain(ctx, b, e) {
        AgreeBelow(ctx, b, g, e);
        PlainBelow(ctx, b, g, e);
      }
    }
    if Resolved(ctx, b, fn) {
      assert Consistent(ctx, b, fn) && SlicesWrapped(ctx, b, fn);
    }
  }

  /** Of an agreeing function the analysis misses nothing. */
  lemma AgreeingMissesNothing(ctx: Context, fn: Function)
    requires Agreeing(ctx, fn)
    ensures NothingMissed(ctx, fn)
  {
    var g :| Consistent(ctx, g, fn) && SlicesWrapped(ctx, g, fn);
    FinalIsStable(ctx, g, fn);
    CollectIsComplete(ctx, Final(ctx, fn), g, fn);
    CompleteExactlyWhen(ctx, fn);
  }

  // ---------------------------------------------------------------- what one type a name misses

  /** Only node `n` of the function reads a column of this name. */
  ghost predicate OnlyReader(fn: Function, n: Expr, c: string) {
    n in FunctionNodes(fn) && forall o :: o in FunctionNodes(fn) && ReadBase(o, c).Some? ==> o == n
  }

  /** A node whose base may be of two models with the column reads both, and records at most one. */
  lemma TwoTypesMissARead(ctx: Context, fn: Function, n: Expr, m: string, other: string, c: string)
    requires OnlyReader(fn, n, c) && Typed(ctx, fn, n, m, c) && Typed(ctx, fn, n, other, c) && m != other
    ensures CanRead(ctx, fn, m, c) && CanRead(ctx, fn, other, c)
    ensures !Collected(ctx, fn, m, c) || !Collected(ctx, fn, other, c)
  {
    TypedCanRead(ctx, fn, n, m, c);
    TypedCanRead(ctx, fn, n, other, c);
    RecordsOne(ctx, Final(ctx, fn), fn, n, m, other, c);
  }

  lemma TypedCanRead(ctx: Context, fn: Function, n: Expr, m: string, c: string)
    requires n in FunctionNodes(fn) && Typed(ctx, fn, n, m, c)
    ensures CanRead(ctx, fn, m, c)
  {
    ReadableExactlyWhenTyped(ctx, fn, n, m, c);
    NodeCanRead(ctx, fn, n, m, c);
  }

  lemma RecordsOne(ctx: Context, b: Bindings, fn: Function, n: Expr, m: string, other: string, c: string)
    requires OnlyReader(fn, n, c) && m != other
    ensures !Records(ctx, b, FunctionNodes(fn), (m, c)) || !Records(ctx, b, FunctionNodes(fn), (other, c))
  {
    RecordedOnlyAt(ctx, b, fn, n, m, c);
    RecordedOnlyAt(ctx, b, fn, n, other, c);
  }

  lemma RecordedOnlyAt(ctx: Context, b: Bindings, fn: Function, n: Expr, m: string, c: string)
    requires OnlyReader(fn, n, c)
    ensures Records(ctx, b, FunctionNodes(fn), (m, c)) ==> ReadOf(ctx, b, n) == Some((m, c))
  {
    if o :| o in FunctionNodes(fn) && ReadOf(ctx, b, o) == Some((m, c)) {
      ReadOfBase(ctx, b, o, m, c);
    }
  }

  /** Two sites that bind a local to instances of two models: reads of a column of both off it are missed. */
  lemma DisagreeingSitesMissARead(
      ctx: Context, fn: Function, s: Site, t: Site, m: string, other: string, c: string)
    requires s in FunctionSites(fn) && t in FunctionSites(fn) && s.name == t.name && m != other
    requires SiteHasType(ctx, Types(ctx, fn), s, InferType(m, false)) && HasColumn(ctx, m, c)
    requires SiteHasType(ctx, Types(ctx, fn), t, InferType(other, false)) && HasColumn(ctx, other, c)
    requires OnlyReader(fn, Attr(Name(s.name), c), c)
    ensures CanRead(ctx, fn, m, c) && CanRead(ctx, fn, other, c)
    ensures !Collected(ctx, fn, m, c) || !Collected(ctx, fn, other, c)
  {
    SiteIsTyped(ctx, fn, s, m, c);
    SiteIsTyped(ctx, fn, t, other, c);
    TwoTypesMissARead(ctx, fn, Attr(Name(s.name), c), m, other, c);
  }

  lemma SiteIsTyped(ctx: Context, fn: Function, s: Site, m: string, c: string)
    requires s in FunctionSites(fn) && SiteHasType(ctx, Types(ctx, fn), s, InferType(m, false)) && HasColumn(ctx, m, c)
    ensures Typed(ctx, fn, Attr(Name(s.name), c), m, c)
  {
    RoundsSettleTypes(ctx, fn);
    assert (s.name, InferType(m, false)) in NextTypes(ctx, fn, Types(ctx, fn));
  }

  /** A loop over a subscript, so also over a slice, never gives its target a type. */
  lemma {:induction false} SubscriptLoopsBindNothing(ctx: Context, b: Bindings, sites: seq<Site>, x: string, k: nat)
    requires x !in b && forall s :: s in sites && s.name == x ==> s.Loop? && s.iterable.Subscript?
    ensures x !in Rounds(ctx, b, sites, k)
  {
    if k > 0 {
      SubscriptLoopsBindNothing(ctx, b, sites, x, k - 1);
      OneRoundBindsNothing(ctx, Rounds(ctx, b, sites, k - 1), sites, x);
    }
  }

  lemma {:induction false} OneRoundBindsNothing(ctx: Context, b: Bindings, sites: seq<Site>, x: string)
    requires x !in b && forall s :: s in sites && s.name == x ==> s.Loop? && s.iterable.Subscript?
    ensures x !in Round(ctx, b, sites)
  {
    if sites != [] {
      OneRoundBindsNothing(ctx, b, sites[..|sites| - 1], x);
      assert sites[|sites| - 1] in sites;
    }
  }

  /** A loop over a slice of a typed collection: whatever the model and the column, the reads off its target are missed. */
  lemma SlicesMissARead(ctx: Context, fn: Function, x: string, base: Expr, index: Expr, m: string, c: string)
    requires Loop(x, Subscript(base, index, true)) in FunctionSites(fn) && x !in fn.params
    requires forall s :: s in FunctionSites(fn) && s.name == x ==> s.Loop? && s.iterable.Subscript?
    requires HasType(ctx, Types(ctx, fn), base, InferType(m, true)) && HasColumn(ctx, m, c)
    requires OnlyReader(fn, Attr(Name(x), c), c)
    ensures CanRead(ctx, fn, m, c) && !Collected(ctx, fn, m, c)
  {
    SliceIsTyped(ctx, Types(ctx, fn), x, base, index, m);
    SiteIsTyped(ctx, fn, Loop(x, Subscript(base, index, true)), m, c);
    TypedCanRead(ctx, fn, Attr(Name(x), c), m, c);
    FinalBindsNothing(ctx, fn, x);
    UntypedNameRecordsNothing(ctx, Final(ctx, fn), fn, x, m, c);
  }

  lemma SliceIsTyped(ctx: Context, g: Typing, x: string, base: Expr, index: Expr, m: string)
    requires HasType(ctx, g, base, InferType(m, true))
    ensures SiteHasType(ctx, g, Loop(x, Subscript(base, index, true)), InferType(m, false))
  {
  }

  lemma FinalBindsNothing(ctx: Context, fn: Function, x: string)
    requires x !in fn.params
    requires forall s :: s in FunctionSites(fn) && s.name == x ==> s.Loop? && s.iterable.Subscript?
    ensures x !in Final(ctx, fn)
  {
    SubscriptLoopsBindNothing(ctx, fn.params, FunctionSites(fn), x, |FunctionSites(fn)| + 1);
  }

  lemma UntypedNameRecordsNothing(ctx: Context, b: Bindings, fn: Function, x: string, m: string, c: string)
    requires x !in b && OnlyReader(fn, Attr(Name(x), c), c)
    ensures !Records(ctx, b, FunctionNodes(fn), (m, c))
  {
    RecordedOnlyAt(ctx, b, fn, Attr(Name(x), c), m, c);
  }

  /** Two assignments of a local from annotated helpers, and a read of a column off it. */
  function Twice(f: string, h: string, x: string, c: string): Function {
    Function(map[], [Assign([x], Call(f, [])), Assign([x], Call(h, [])), Block([Attr(Name(x), c)], [])])
  }

  lemma TwiceTop(f: string, h: string, x: string, c: string)
    ensures TopExprs(Twice(f, h, x, c).body) == [Call(f, []), Call(h, []), Attr(Name(x), c)]
    ensures StmtSites(Twice(f, h, x, c).body) == [Bind(x, Call(f, [])), Bind(x, Call(h, []))]
  {
    var body := Twice(f, h, x, c).body;
    assert body[1..][1..] == [body[2]] && body[2..] == [body[2]];
    assert TopExprs([body[2]]) == [Attr(Name(x), c)] && StmtSites([body[2]]) == [];
    assert TopExprs(body[1..]) == [Call(h, [])] + TopExprs([body[2]]);
    assert AssignSites([x], Call(h, [])) == [Bind(x, Call(h, []))] && AssignSites([x], Call(f, [])) == [Bind(x, Call(f, []))];
    assert StmtSites(body[1..]) == AssignSites([x], Call(h, [])) + StmtSites([body[2]]);
  }

  lemma CallNode(f: string, n: Expr)
    ensures n in Nodes(Call(f, [])) <==> n == Call(f, [])
  {
  }

  lemma ReadNodes(x: string, c: string, n: Expr)
    ensures n in Nodes(Attr(Name(x), c)) <==> n == Attr(Name(x), c) || n == Name(x)
  {
    assert Nodes(Name(x)) == [Name(x)];
    assert Name(x) in Kids(Attr(Name(x), c));
  }

  lemma TwiceNodes(f: string, h: string, x: string, c: string, n: Expr)
    ensures n in FunctionNodes(Twice(f, h, x, c)) <==> n in [Call(f, []), Call(h, []), Attr(Name(x), c), Name(x)]
  {
    TwiceTop(f, h, x, c);
    CallNode(f, n);
    CallNode(h, n);
    ReadNodes(x, c, n);
  }

  lemma TwiceSites(f: string, h: string, x: string, c: string)
    ensures Bind(x, Call(f, [])) in FunctionSites(Twice(f, h, x, c)) && Bind(x, Call(h, [])) in FunctionSites(Twice(f, h, x, c))
  {
    TwiceTop(f, h, x, c);
  }

  lemma TwiceReadsOnce(f: string, h: string, x: string, c: string, o: Expr)
    requires o in FunctionNodes(Twice(f, h, x, c)) && ReadBase(o, c).Some?
    ensures o == Attr(Name(x), c)
  {
    TwiceNodes(f, h, x, c, o);
  }

  lemma TwiceReader(f: string, h: string, x: string, c: string)
    ensures OnlyReader(Twice(f, h, x, c), Attr(Name(x), c), c)
  {
    TwiceNodes(f, h, x, c, Attr(Name(x), c));
    forall o | o in FunctionNodes(Twice(f, h, x, c)) && ReadBase(o, c).Some? ensures o == Attr(Name(x), c) {
      TwiceReadsOnce(f, h, x, c, o);
    }
  }

  lemma CallTyped(ctx: Context, g: Typing, x: string, f: string)
    requires f in ctx.funcReturns
    ensures SiteHasType(ctx, g, Bind(x, Call(f, [])), ctx.funcReturns[f])
  {
  }

  /** An instance: whatever the two models, one of the two reads is missed. */
  lemma TwiceMissesARead(ctx: Context, f: string, h: string, x: string, m: string, other: string, c: string)
    requires f in ctx.funcReturns && ctx.funcReturns[f] == InferType(m, false) && HasColumn(ctx, m, c)
    requires h in ctx.funcReturns && ctx.funcReturns[h] == InferType(other, false) && HasColumn(ctx, other, c)
    requires m != other
    ensures CanRead(ctx, Twice(f, h, x, c), m, c) && CanRead(ctx, Twice(f, h, x, c), other, c)
    ensures !Collected(ctx, Twice(f, h, x, c), m, c) || !Collected(ctx, Twice(f, h, x, c), other, c)
  {
    TwiceSites(f, h, x, c);
    TwiceReader(f, h, x, c);
    CallTyped(ctx, Types(ctx, Twice(f, h, x, c)), x, f);
    CallTyped(ctx, Types(ctx, Twice(f, h, x, c)), x, h);
    DisagreeingSitesMissARead(ctx, Twice(f, h, x, c), Bind(x, Call(f, [])), Bind(x, Call(h, [])), m, other, c);
  }

  /** A loop over a slice of a parameter, and a read of a column off its target. */
  function SliceLoop(ts: string, x: string, m: string, c: string): Function {
    Function(map[ts := InferType(m, true)], [For(Some(x), Slice(ts), [Block([Attr(Name(x), c)], [])])])
  }

  /** `ts[...]` with any slice, whose bounds are not followed. */
  function Slice(ts: string): Expr {
    Subscript(Name(ts), Other([]), true)
  }

  lemma SliceLoopTop(ts: string, x: string, m: string, c: string)
    ensures TopExprs(SliceLoop(ts, x, m, c).body) == [Slice(ts), Attr(Name(x), c)]
    ensures StmtSites(SliceLoop(ts, x, m, c).body) == [Loop(x, Slice(ts))]
  {
    var inner := [Block([Attr(Name(x), c)], [])];
    assert TopExprs(inner) == [Attr(Name(x), c)] && StmtSites(inner) == [];
  }

  lemma SliceNodes(ts: string, n: Expr)
    ensures n in Nodes(Slice(ts)) <==> n == Slice(ts) || n == Name(ts) || n == Other([])
  {
    assert Nodes(Name(ts)) == [Name(ts)] && Nodes(Other([])) == [Other([])];
    assert Kids(Slice(ts)) == [Name(ts), Other([])];
    assert Name(ts) in Kids(Slice(ts)) && Other([]) in Kids(Slice(ts));
  }

  lemma SliceLoopNodes(ts: string, x: string, m: string, c: string, n: Expr)
    ensures n in FunctionNodes(SliceLoop(ts, x, m, c)) <==> n in [Slice(ts), Name(ts), Other([]), Attr(Name(x), c), Name(x)]
  {
    SliceLoopTop(ts, x, m, c);
    SliceNodes(ts, n);
    ReadNodes(x, c, n);
  }

  lemma SliceLoopReader(ts: string, x: string, m: string, c: string)
    ensures OnlyReader(SliceLoop(ts, x, m, c), Attr(Name(x), c), c)
  {
    SliceLoopNodes(ts, x, m, c, Attr(Name(x), c));
    forall o | o in FunctionNodes(SliceLoop(ts, x, m, c)) && ReadBase(o, c).Some? ensures o == Attr(Name(x), c) {
      SliceLoopReadsOnce(ts, x, m, c, o);
    }
  }

  lemma SliceLoopReadsOnce(ts: string, x: string, m: string, c: string, o: Expr)
    requires o in FunctionNodes(SliceLoop(ts, x, m, c)) && ReadBase(o, c).Some?
    ensures o == Attr(Name(x), c)
  {
    SliceLoopNodes(ts, x, m, c, o);
  }

  lemma SliceLoopIsPlain(ts: string, x: string, m: string, c: string, n: Expr)
    requires n in FunctionNodes(SliceLoop(ts, x, m, c))
    ensures !n.Comp?
  {
    SliceLoopNodes(ts, x, m, c, n);
  }

  lemma SliceLoopSites(ts: string, x: string, m: string, c: string)
    ensures FunctionSites(SliceLoop(ts, x, m, c)) == [Loop(x, Slice(ts))]
  {
    SliceLoopTop(ts, x, m, c);
    forall n | n in FunctionNodes(SliceLoop(ts, x, m, c)) ensures !n.Comp? {
      SliceLoopIsPlain(ts, x, m, c, n);
    }
    NoComprehension(FunctionNodes(SliceLoop(ts, x, m, c)));
  }

  lemma ParamIsTyped(ctx: Context, fn: Function, x: string)
    requires x in fn.params
    ensures HasType(ctx, Types(ctx, fn), Name(x), fn.params[x])
  {
    ParamsTyped(ctx, fn, |Pairs(ctx, fn)|);
    assert (x, fn.params[x]) in Possible(ctx, fn, 0);
  }

  /** An instance: the read is missed. */
  lemma SliceLoopMissesItsRead(ctx: Context, ts: string, x: string, m: string, c: string)
    requires ts != x && HasColumn(ctx, m, c)
    ensures CanRead(ctx, SliceLoop(ts, x, m, c), m, c) && !Collected(ctx, SliceLoop(ts, x, m, c), m, c)
  {
    var fn := SliceLoop(ts, x, m, c);
    SliceLoopReader(ts, x, m, c);
    ParamIsTyped(ctx, fn, ts);
    SliceLoopSites(ts, x, m, c);
    SlicesMissARead(ctx, fn, x, Name(ts), Other([]), m, c);
  }

  // ---------------------------------------------------------------- the call closure

  type Functions = map<string, Function>

  /** The module-local functions called, by plain name, inside `fn`. */
  function LocalCalls(funcs: Functions, fn: Function): set<string> {
    set n | n in FunctionNodes(fn) && n.Call? && n.func in funcs :: n.func
  }

  /** Each function's local calls. */
  type CallGraph = map<string, set<string>>

  function CallsOf(funcs: Functions): (g: CallGraph)
    ensures g.Keys == funcs.Keys && forall f :: f in funcs ==> g[f] == LocalCalls(funcs, funcs[f]) && g[f] <= g.Keys
  {
    map f | f in funcs :: LocalCalls(funcs, funcs[f])
  }

  ghost predicate Calls(g: CallGraph, f: string, h: string) {
    f in g && h in g[f]
  }

  /** A chain of activations: an entry point, then each function called by the one before. */
  ghost predicate Activation(g: CallGraph, entries: set<string>, chain: seq<string>) {
    && chain != [] && chain[0] in entries
    && (forall i :: 0 <= i < |chain| ==> chain[i] in g)
    && (forall i, j {:trigger Calls(g, chain[i], chain[j])} :: 0 <= i < j == i + 1 < |chain| ==> Calls(g, chain[i], chain[j]))
  }

  /** The text of `f` calls `h`, by plain name and anywhere in it, and `h` is a function of the module. */
  ghost predicate Invokes(funcs: Functions, f: string, h: string) {
    f in funcs && h in funcs && exists n :: OccursIn(n, funcs[f].body) && n.Call? && n.func == h
  }

  /** An entry point, then each function called in the text of the one before. */
  ghost predicate RunChain(funcs: Functions, entries: set<string>, chain: seq<string>) {
    && chain != [] && chain[0] in entries
    && (forall i :: 0 <= i < |chain| ==> chain[i] in funcs)
    && (forall i, j {:trigger Invokes(funcs, chain[i], chain[j])} :: 0 <= i < j == i + 1 < |chain| ==>
          Invokes(funcs, chain[i], chain[j]))
  }

  lemma CallsAreInvocations(funcs: Functions, f: string, h: string)
    ensures Calls(CallsOf(funcs), f, h) <==> Invokes(funcs, f, h)
  {
    if f in funcs {
      LocalCallsExactly(funcs, funcs[f], h);
    }
  }

  /** The calls collected from a function are exactly those of its text to functions of the module. */
  lemma LocalCallsExactly(funcs: Functions, fn: Function, h: string)
    ensures h in LocalCalls(funcs, fn) <==> h in funcs && exists n :: OccursIn(n, fn.body) && n.Call? && n.func == h
  {
    if h in LocalCalls(funcs, fn) {
      var n :| n in FunctionNodes(fn) && n.Call? && n.func in funcs && n.func == h;
      NodesAreOccurrences(fn, n);
    }
    if n :| OccursIn(n, fn.body) && n.Call? && n.func == h {
      NodesAreOccurrences(fn, n);
    }
  }

  lemma RunChainsAreActivations(funcs: Functions, entries: set<string>, chain: seq<string>)
    ensures RunChain(funcs, entries, chain) <==> Activation(CallsOf(funcs), entries, chain)
  {
    var g := CallsOf(funcs);
    forall i, j | 0 <= i < j == i + 1 < |chain| ensures Calls(g, chain[i], chain[j]) <==> Invokes(funcs, chain[i], chain[j]) {
      CallsAreInvocations(funcs, chain[i], chain[j]);
    }
  }

  ghost predicate Closed(g: CallGraph, s: set<string>) {
    s <= g.Keys && forall f :: f in s ==> g[f] <= s
  }

  lemma {:induction false} ActivationsStayInside(g: CallGraph, entries: set<string>, s: set<string>, chain: seq<string>, i: nat)
    requires entries <= s && Closed(g, s) && Activation(g, entries, chain) && i < |chain|
    ensures chain[i] in s
  {
    if i > 0 {
      ActivationsStayInside(g, entries, s, chain, i - 1);
      assert Calls(g, chain[i - 1], chain[i]);
    }
  }

  /** Nothing reached or owed by the worklist is lost, and nothing else is on it. */
  ghost predicate WorkList(g: CallGraph, entries: set<string>, reachable: set<string>, pending: set<string>) {
    && reachable + pending <= g.Keys
    && entries <= reachable + pending
    && (forall f :: f in reachable ==> g[f] <= reachable + pending)
    && (forall t :: entries <= t && Closed(g, t) ==> reachable + pending <= t)
  }

  lemma WorkListStep(g: CallGraph, entries: set<string>, reachable: set<string>, pending: set<string>, name: string)
    requires WorkList(g, entries, reachable, pending) && name in pending && g[name] <= g.Keys
    ensures WorkList(g, entries, reachable + {name}, pending - {name} + (g[name] - (reachable + {name})))
  {
    var all := reachable + pending + g[name];
    assert reachable + {name} + (pending - {name} + (g[name] - (reachable + {name}))) == all;
    forall f | f in reachable + {name} ensures g[f] <= all {
      if f in reachable {
        assert g[f] <= reachable + pending;
      }
    }
    forall t | entries <= t && Closed(g, t) ensures all <= t {
      assert reachable + pending <= t && name in t;
    }
  }

  /** The least set that holds the entries and is closed under calls. */
  ghost predicate LeastClosed(g: CallGraph, entries: set<string>, s: set<string>) {
    entries <= s && Closed(g, s) && forall t :: entries <= t && Closed(g, t) ==> s <= t
  }

  /** The queue of the worklist over local calls. */
  method Drain(g: CallGraph, entries: set<string>) returns (reachable: set<string>)
    requires entries <= g.Keys && forall f :: f in g ==> g[f] <= g.Keys
    ensures LeastClosed(g, entries, reachable)
  {
    reachable := {};
    var queue := AsList(entries);
    ghost var pending := entries;
    while queue != []
      invariant WorkList(g, entries, reachable, pending)
      invariant pending <= reachable + Elements(queue) && Elements(queue) <= reachable + pending
      decreases g.Keys - reachable, |queue|
    {
      var name := queue[|queue| - 1];
      assert Elements(queue) == Elements(queue[..|queue| - 1]) + {name};
      queue := queue[..|queue| - 1];
      if name !in reachable {
        WorkListStep(g, entries, reachable, pending, name);
        ghost var unreached := g.Keys - reachable;
        reachable := reachable + {name};
        assert name in unreached && g.Keys - reachable < unreached;
        pending := pending - {name} + (g[name] - reachable);
        var callees := AsList(g[name] - reachable);
        assert Elements(queue + callees) == Elements(queue) + Elements(callees);
        queue := queue + callees;
      }
    }
  }

  /** Some chain of activations from an entry ends in `f`. */
  ghost predicate OnPath(g: CallGraph, entries: set<string>, f: string) {
    exists chain :: Activation(g, entries, chain) && chain[|chain| - 1] == f
  }

  lemma EntryOnPath(g: CallGraph, entries: set<string>, f: string)
    requires f in entries && f in g
    ensures OnPath(g, entries, f)
  {
    assert Activation(g, entries, [f]);
  }

  lemma CalleeOnPath(g: CallGraph, entries: set<string>, f: string, h: string)
    requires OnPath(g, entries, f) && Calls(g, f, h) && h in g
    ensures OnPath(g, entries, h)
  {
    var chain :| Activation(g, entries, chain) && chain[|chain| - 1] == f;
    var longer := chain + [h];
    forall i, j | 0 <= i < j == i + 1 < |longer| ensures Calls(g, longer[i], longer[j]) {
      if j < |chain| {
        assert Calls(g, chain[i], chain[j]);
      }
    }
    assert Activation(g, entries, longer) && longer[|longer| - 1] == h;
  }

  lemma PathStaysInside(g: CallGraph, entries: set<string>, s: set<string>, f: string)
    requires entries <= s && Closed(g, s) && OnPath(g, entries, f)
    ensures f in s
  {
    var chain :| Activation(g, entries, chain) && chain[|chain| - 1] == f;
    ActivationsStayInside(g, entries, s, chain, |chain| - 1);
  }

  /** The least set holding the entries and closed under calls is what the chains of activations come to. */
  lemma LeastClosedIsThePath(g: CallGraph, entries: set<string>, s: set<string>)
    requires LeastClosed(g, entries, s) && forall f :: f in g ==> g[f] <= g.Keys
    ensures forall f :: f in s <==> OnPath(g, entries, f)
  {
    var t := set f | f in g && OnPath(g, entries, f);
    forall f | f in entries ensures f in t {
      EntryOnPath(g, entries, f);
    }
    forall f, h | f in t && h in g[f] ensures h in t {
      CalleeOnPath(g, entries, f, h);
    }
    assert Closed(g, t);
    forall f | OnPath(g, entries, f) ensures f in s {
      PathStaysInside(g, entries, s, f);
    }
  }

  /** Some chain of calls in the text from an entry ends in `f`. */
  ghost predicate Reached(funcs: Functions, entries: set<string>, f: string) {
    exists chain :: RunChain(funcs, entries, chain) && chain[|chain| - 1] == f
  }

  lemma ReachedIsOnPath(funcs: Functions, entries: set<string>, f: string)
    ensures Reached(funcs, entries, f) <==> OnPath(CallsOf(funcs), entries, f)
  {
    forall chain ensures RunChain(funcs, entries, chain) <==> Activation(CallsOf(funcs), entries, chain) {
      RunChainsAreActivations(funcs, entries, chain);
    }
  }

  /**
    The worklist over local calls: exactly the functions some chain of activations from an entry
    comes to, the least set closed under calls; `None` when an entry is not defined in the module.
   */
  method ReachableFunctions(funcs: Functions, entries: set<string>) returns (r: Option<set<string>>)
    ensures r.Some? <==> entries <= funcs.Keys
    ensures r.Some? ==> LeastClosed(CallsOf(funcs), entries, r.value)
    ensures r.Some? ==> forall f :: f in r.value <==> Reached(funcs, entries, f)
  {
    if !(entries <= funcs.Keys) {
      return None;
    }
    var g := CallsOf(funcs);
    var reachable := Drain(g, entries);
    LeastClosedIsThePath(g, entries, reachable);
    forall f ensures f in reachable <==> Reached(funcs, entries, f) {
      ReachedIsOnPath(funcs, entries, f);
    }
    return Some(reachable);
  }

  /** The columns `Collect` records for a function. */
  ghost function CollectedSet(ctx: Context, fn: Function): iset<(string, string)> {
    iset m, c | Collected(ctx, fn, m, c) :: (m, c)
  }

  /** The reads of one function, its parameters bound to their annotated types. */
  method CollectFunction(ctx: Context, funcs: Functions, f: string) returns (found: set<(string, string)>)
    requires f in funcs
    ensures forall r :: r in found <==> r in CollectedSet(ctx, funcs[f])
    ensures (forall m, c :: CanRead(ctx, funcs[f], m, c) ==> (m, c) in found) <==> NothingMissed(ctx, funcs[f])
  {
    var collector := new ReadCollector(ctx, funcs[f].params);
    found := collector.Collect(funcs[f]);
    forall r ensures r in found <==> r in CollectedSet(ctx, funcs[f]) {
      assert r == (r.0, r.1);
    }
  }

  /** In one of the first `n` of these. */
  ghost predicate InSome(all: seq<iset<(string, string)>>, n: nat, x: (string, string)) {
    exists j :: 0 <= j < n && j < |all| && x in all[j]
  }

  lemma InSomeNext(all: seq<iset<(string, string)>>, n: nat, x: (string, string))
    requires n < |all|
    ensures InSome(all, n + 1, x) <==> InSome(all, n, x) || x in all[n]
  {
  }

  /** What is collected for each of these functions. */
  ghost predicate AllCollected(ctx: Context, funcs: Functions, names: seq<string>, all: seq<iset<(string, string)>>) {
    |all| == |names|
    && forall i {:trigger names[i]} :: 0 <= i < |names| ==> names[i] in funcs && all[i] == CollectedSet(ctx, funcs[names[i]])
  }

  method CollectAll(ctx: Context, funcs: Functions, names: seq<string>, ghost all: seq<iset<(string, string)>>)
    returns (found: set<(string, string)>)
    requires AllCollected(ctx, funcs, names, all)
    ensures forall r :: r in found <==> InSome(all, |all|, r)
  {
    found := {};
    for i := 0 to |names|
      invariant forall r :: r in found <==> InSome(all, i, r)
    {
      var more := CollectFunction(ctx, funcs, names[i]);
      Joined(found, more, all, i);
      found := found + more;
    }
  }

  lemma Joined(found: set<(string, string)>, more: set<(string, string)>, all: seq<iset<(string, string)>>, i: nat)
    requires i < |all| && (forall r :: r in found <==> InSome(all, i, r)) && forall r :: r in more <==> r in all[i]
    ensures forall r :: r in found + more <==> InSome(all, i + 1, r)
  {
    forall r ensures InSome(all, i + 1, r) <==> InSome(all, i, r) || r in all[i] {
      InSomeNext(all, i, r);
    }
  }

  /** Some function on the builder path has this column recorded. */
  ghost predicate CollectedOnPath(ctx: Context, funcs: Functions, entries: set<string>, r: (string, string)) {
    exists f :: f in funcs && Reached(funcs, entries, f) && r in CollectedSet(ctx, funcs[f])
  }

  /** The columns read on the builder path from the entries: what is recorded for a function on it, and nothing else. */
  method CollectReadColumns(ctx: Context, funcs: Functions, entries: set<string>) returns (r: Option<set<(string, string)>>)
    ensures r.Some? <==> entries <= funcs.Keys
    ensures r.Some? ==> forall x :: x in r.value <==> CollectedOnPath(ctx, funcs, entries, x)
  {
    var closure := ReachableFunctions(funcs, entries);
    if closure.None? {
      return None;
    }
    var names := AsList(closure.value);
    ghost var all := seq(|names|, i requires 0 <= i < |names| => CollectedSet(ctx, funcs[names[i]]));
    var found := CollectAll(ctx, funcs, names, all);
    forall x ensures x in found <==> CollectedOnPath(ctx, funcs, entries, x) {
      OnPathIsInSome(ctx, funcs, entries, names, all, x);
    }
    return Some(found);
  }

  lemma OnPathIsInSome(ctx: Context, funcs: Functions, entries: set<string>, names: seq<string>,
      all: seq<iset<(string, string)>>, x: (string, string))
    requires forall f :: f in names <==> Reached(funcs, entries, f)
    requires AllCollected(ctx, funcs, names, all)
    ensures CollectedOnPath(ctx, funcs, entries, x) <==> InSome(all, |all|, x)
  {
    if CollectedOnPath(ctx, funcs, entries, x) {
      var f :| f in funcs && Reached(funcs, entries, f) && x in CollectedSet(ctx, funcs[f]);
      var j :| 0 <= j < |names| && names[j] == f;
      assert x in all[j];
    }
    if InSome(all, |all|, x) {
      var j :| 0 <= j < |all| && x in all[j];
      assert names[j] in names;
    }
  }

  /** A run of the function can read the column, and nothing of the function is missed. */
  ghost predicate FollowedRead(ctx: Context, fn: Function, m: string, c: string) {
    NothingMissed(ctx, fn) && CanRead(ctx, fn, m, c)
  }

  /** Each column a run of a function on the path can read is collected, if nothing of that function is missed. */
  lemma PathReadIsCollected(ctx: Context, funcs: Functions, entries: set<string>, chain: seq<string>, m: string, c: string)
    requires RunChain(funcs, entries, chain) && FollowedRead(ctx, funcs[chain[|chain| - 1]], m, c)
    ensures CollectedOnPath(ctx, funcs, entries, (m, c))
  {
    var f := chain[|chain| - 1];
    CompleteExactlyWhen(ctx, funcs[f]);
    assert Reached(funcs, entries, f) && (m, c) in CollectedSet(ctx, funcs[f]);
  }

  /** A run of the function can read the column, and its sites, branches and slices agree. */
  ghost predicate AgreedRead(ctx: Context, fn: Function, m: string, c: string) {
    Agreeing(ctx, fn) && CanRead(ctx, fn, m, c)
  }

  /** So is each column that a run of an agreeing function on the path can read. */
  lemma AgreedReadIsCollected(ctx: Context, funcs: Functions, entries: set<string>, chain: seq<string>, m: string, c: string)
    requires RunChain(funcs, entries, chain) && AgreedRead(ctx, funcs[chain[|chain| - 1]], m, c)
    ensures CollectedOnPath(ctx, funcs, entries, (m, c))
  {
    AgreeingMissesNothing(ctx, funcs[chain[|chain| - 1]]);
    PathReadIsCollected(ctx, funcs, entries, chain, m, c);
  }

  // ---------------------------------------------------------------- declared columns and violations

  /** An argument of a `load_only` call: a column, a starred tuple constant, or neither. */
  datatype LoadArg = Column(model: string, column: string) | Starred(tuple: string) | Ignored

  function DeclaredColumns(args: seq<LoadArg>, tuples: map<string, set<(string, string)>>)
    : (r: set<(string, string)>)
    ensures forall m, c :: (m, c) in r <==>
      Column(m, c) in args || exists t :: Starred(t) in args && t in tuples && (m, c) in tuples[t]
  {
    if args == [] then {}
    else
      assert forall a :: a in args <==> a == args[0] || a in args[1..];
      (match args[0]
       case Column(m, c) => {(m, c)}
       case Starred(t) => if t in tuples then tuples[t] else {}
       case Ignored => {}) + DeclaredColumns(args[1..], tuples)
  }

  function Missing(found: set<(string, string)>, declared: set<(string, string)>, ctx: Context, m: string): set<string> {
    set r | r in found && r.0 == m && r !in declared
            && !(m in ctx.metas && r.1 in ctx.metas[m].primaryKey) :: r.1
  }

  /** Read columns missing from their `load_only` set, bucketed by model. */
  function ComputeViolations(found: set<(string, string)>, declared: set<(string, string)>, ctx: Context)
    : map<string, set<string>>
  {
    map m | m in (set r | r in found :: r.0) && Missing(found, declared, ctx, m) != {}
      :: Missing(found, declared, ctx, m)
  }

  lemma NoViolations(found: set<(string, string)>, declared: set<(string, string)>, ctx: Context)
    ensures ComputeViolations(found, declared, ctx) == map[] <==>
      forall m, c :: (m, c) in found ==>
        (m, c) in declared || (m in ctx.metas && c in ctx.metas[m].primaryKey)
  {
    var v := ComputeViolations(found, declared, ctx);
    if m, c :| (m, c) in found && (m, c) !in declared && !(m in ctx.metas && c in ctx.metas[m].primaryKey) {
      assert (m, c).0 in (set r | r in found :: r.0);
      assert (m, c).1 in Missing(found, declared, ctx, m);
      assert m in v;
    }
    if v != map[] {
      var m :| m in v;
      var c :| c in Missing(found, declared, ctx, m);
      assert (m, c) in found;
    }
  }

  /** A column the query has loaded, or that is always loaded. */
  predicate Loaded(ctx: Context, declared: set<(string, string)>, m: string, c: string) {
    (m, c) in declared || (m in ctx.metas && c in ctx.metas[m].primaryKey)
  }

  /**
    The guard over one builder module.  The report is empty if and only if each column recorded on
    the builder path is declared in a `load_only` set or is a primary key.  Then so is each column
    that a run in any activation of an agreeing function reads off a model instance, and of any
    other function in which nothing is missed.
   */
  method Guard(
      ctx: Context, funcs: Functions, entries: set<string>, args: seq<LoadArg>, tuples: map<string, set<(string, string)>>)
    returns (report: Option<map<string, set<string>>>)
    ensures report.Some? <==> entries <= funcs.Keys
    ensures report.Some? ==> (report.value == map[] <==>
      forall m, c :: CollectedOnPath(ctx, funcs, entries, (m, c)) ==> Loaded(ctx, DeclaredColumns(args, tuples), m, c))
    ensures report == Some(map[]) ==> forall chain, m, c ::
      RunChain(funcs, entries, chain) && AgreedRead(ctx, funcs[chain[|chain| - 1]], m, c)
      ==> Loaded(ctx, DeclaredColumns(args, tuples), m, c)
    ensures report == Some(map[]) ==> forall chain, m, c ::
      RunChain(funcs, entries, chain) && FollowedRead(ctx, funcs[chain[|chain| - 1]], m, c)
      ==> Loaded(ctx, DeclaredColumns(args, tuples), m, c)
  {
    var found := CollectReadColumns(ctx, funcs, entries);
    if found.None? {
      return None;
    }
    NoViolations(found.value, DeclaredColumns(args, tuples), ctx);
    forall chain, m, c | RunChain(funcs, entries, chain) && AgreedRead(ctx, funcs[chain[|chain| - 1]], m, c)
      ensures CollectedOnPath(ctx, funcs, entries, (m, c))
    {
      AgreedReadIsCollected(ctx, funcs, entries, chain, m, c);
    }
    forall chain, m, c | RunChain(funcs, entries, chain) && FollowedRead(ctx, funcs[chain[|chain| - 1]], m, c)
      ensures CollectedOnPath(ctx, funcs, entries, (m, c))
    {
      PathReadIsCollected(ctx, funcs, entries, chain, m, c);
    }
    return Some(ComputeViolations(found.value, DeclaredColumns(args, tuples), ctx));
  }
}
