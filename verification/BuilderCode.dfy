/** The builder code the `load_only` guard reads, as a syntax tree, and its binding sites. */
module BuilderCode {
  import opened Common

  datatype InferType = InferType(model: string, many: bool)

  datatype Meta = Meta(columns: set<string>, primaryKey: set<string>, relationships: map<string, InferType>)

  /** What is fixed for one builder module: model metadata and annotated return types. */
  datatype Context = Context(metas: map<string, Meta>, funcReturns: map<string, InferType>)

  datatype CompKind = ListComp | SetComp | GeneratorComp | DictComp

  /** One `for target in iter if conds` clause; a target that is not a plain name binds nothing. */
  datatype Generator = Generator(target: Option<string>, iter: Expr, conds: seq<Expr>)

  datatype Expr =
    | Name(id: string)
    | StrLit(text: string)
    | Attr(base: Expr, attr: string)
    | Call(func: string, args: seq<Expr>)                 // the callee is a plain name
    | Or(values: seq<Expr>)
    | IfExp(test: Expr, body: Expr, orelse: Expr)
    | Subscript(base: Expr, index: Expr, slice: bool)
    | Comp(kind: CompKind, elt: Expr, gens: seq<Generator>)
    | Other(parts: seq<Expr>)                             // every form the inference returns None for

  datatype Stmt =
    | Assign(targets: seq<string>, value: Expr)
    | For(target: Option<string>, iter: Expr, body: seq<Stmt>)
    | Block(exprs: seq<Expr>, body: seq<Stmt>)            // if, while, with, try, return, expression

  datatype Function = Function(params: map<string, InferType>, body: seq<Stmt>)

  /** A place that binds a local name: to a value, or to the elements of an iterable. */
  datatype Site = Bind(name: string, value: Expr) | Loop(name: string, iterable: Expr)

  const SEQUENCE_WRAPPERS: set<string> := {"list", "tuple", "set", "frozenset", "sorted", "reversed"}

  function GenParts(gens: seq<Generator>): (r: seq<Expr>)
    ensures forall k :: k in r ==> exists g :: g in gens && (k == g.iter || k in g.conds)
    ensures forall g :: g in gens ==> g.iter in r && forall c :: c in g.conds ==> c in r
  {
    if gens == [] then [] else [gens[0].iter] + gens[0].conds + GenParts(gens[1..])
  }

  function Kids(e: Expr): (r: seq<Expr>)
    ensures forall k :: k in r ==> k < e
  {
    match e
    case Name(_) => []
    case StrLit(_) => []
    case Attr(base, _) => [base]
    case Call(_, args) => args
    case Or(values) => values
    case IfExp(test, body, orelse) => [test, body, orelse]
    case Subscript(base, index, _) => [base, index]
    case Comp(_, elt, gens) => [elt] + GenParts(gens)
    case Other(parts) => parts
  }

  /** Every node of an expression, as a walk of its tree visits them. */
  function Nodes(e: Expr): (r: seq<Expr>)
    ensures e in r
    decreases e
  {
    [e] + NodesAll(e, Kids(e))
  }

  function NodesAll(parent: Expr, es: seq<Expr>): (r: seq<Expr>)
    requires forall k :: k in es ==> k < parent
    ensures forall k, n :: k in es && n in Nodes(k) ==> n in r
    ensures forall n :: n in r ==> exists k :: k in es && n in Nodes(k)
    decreases parent, |es|
  {
    if es == [] then []
    else
      assert es[0] in es && forall k :: k in es[1..] ==> k in es;
      Nodes(es[0]) + NodesAll(parent, es[1..])
  }

  function GenSites(gens: seq<Generator>): (r: seq<Site>)
    ensures forall g :: g in gens && g.target.Some? ==> Loop(g.target.value, g.iter) in r
    ensures forall s :: s in r ==> s.Loop? && exists g :: g in gens && s.iterable == g.iter
  {
    if gens == [] then []
    else (if gens[0].target.Some? then [Loop(gens[0].target.value, gens[0].iter)] else [])
         + GenSites(gens[1..])
  }

  function CompSites(nodes: seq<Expr>): (r: seq<Site>)
    ensures forall n, s :: n in nodes && n.Comp? && s in GenSites(n.gens) ==> s in r
    ensures forall s :: s in r ==> exists n :: n in nodes && n.Comp? && s in GenSites(n.gens)
  {
    if nodes == [] then []
    else (if nodes[0].Comp? then GenSites(nodes[0].gens) else []) + CompSites(nodes[1..])
  }

  function AssignSites(targets: seq<string>, value: Expr): seq<Site> {
    if targets == [] then [] else [Bind(targets[0], value)] + AssignSites(targets[1..], value)
  }

  /** The expressions that appear directly in a statement list, nested bodies included. */
  function TopExprs(ss: seq<Stmt>): seq<Expr> {
    if ss == [] then []
    else (match ss[0]
          case Assign(_, value) => [value]
          case For(_, iter, body) => [iter] + TopExprs(body)
          case Block(exprs, body) => exprs + TopExprs(body)) + TopExprs(ss[1..])
  }

  function StmtSites(ss: seq<Stmt>): seq<Site> {
    if ss == [] then []
    else (match ss[0]
          case Assign(targets, value) => AssignSites(targets, value)
          case For(target, iter, body) =>
            (if target.Some? then [Loop(target.value, iter)] else []) + StmtSites(body)
          case Block(_, body) => StmtSites(body)) + StmtSites(ss[1..])
  }

  function AllNodes(es: seq<Expr>): (r: seq<Expr>)
    ensures forall e, n :: e in es && n in Nodes(e) ==> n in r
    ensures forall n :: n in r ==> exists e :: e in es && n in Nodes(e)
  {
    if es == [] then []
    else
      assert es[0] in es && forall k :: k in es[1..] ==> k in es;
      Nodes(es[0]) + AllNodes(es[1..])
  }

  function FunctionNodes(fn: Function): seq<Expr> {
    AllNodes(TopExprs(fn.body))
  }

  function FunctionSites(fn: Function): seq<Site> {
    StmtSites(fn.body) + CompSites(FunctionNodes(fn))
  }

  function SiteNames(sites: seq<Site>): set<string> {
    set s | s in sites :: s.name
  }

  function SiteExpr(s: Site): Expr {
    if s.Bind? then s.value else s.iterable
  }

  lemma {:induction false} NodesNest(e: Expr, n: Expr, m: Expr)
    requires n in Nodes(e) && m in Nodes(n)
    ensures m in Nodes(e)
    decreases e
  {
    if n != e {
      var k :| k in Kids(e) && n in Nodes(k);
      NodesNest(k, n, m);
    }
  }

  lemma {:induction false} AssignSiteExprs(targets: seq<string>, value: Expr, s: Site)
    requires s in AssignSites(targets, value)
    ensures SiteExpr(s) == value
  {
    if s != Bind(targets[0], value) {
      AssignSiteExprs(targets[1..], value, s);
    }
  }

  lemma {:induction false} StmtSiteExprs(ss: seq<Stmt>, s: Site)
    requires s in StmtSites(ss)
    ensures SiteExpr(s) in TopExprs(ss)
  {
    if s in StmtSites(ss[1..]) {
      StmtSiteExprs(ss[1..], s);
    } else {
      match ss[0]
      case Assign(targets, value) => AssignSiteExprs(targets, value, s);
      case For(target, iter, body) => if s in StmtSites(body) { StmtSiteExprs(body, s); }
      case Block(_, body) => StmtSiteExprs(body, s);
    }
  }

  lemma GenSiteExpr(n: Expr, s: Site)
    requires n.Comp? && s in GenSites(n.gens)
    ensures SiteExpr(s) in Nodes(n)
  {
    assert SiteExpr(s) in Kids(n) && SiteExpr(s) in Nodes(SiteExpr(s));
  }

  lemma TopIsNode(es: seq<Expr>, e: Expr)
    requires e in es
    ensures e in AllNodes(es)
  {
    assert e in Nodes(e);
  }

  lemma NoComprehension(nodes: seq<Expr>)
    requires forall n :: n in nodes ==> !n.Comp?
    ensures CompSites(nodes) == []
  {
    if CompSites(nodes) != [] {
      var n := CompOfSite(nodes, CompSites(nodes)[0]);
    }
  }

  lemma CompOfSite(nodes: seq<Expr>, s: Site) returns (n: Expr)
    requires s in CompSites(nodes)
    ensures n in nodes && n.Comp? && s in GenSites(n.gens)
  {
    n :| n in nodes && n.Comp? && s in GenSites(n.gens);
  }

  lemma CompSiteExpr(es: seq<Expr>, n: Expr, s: Site)
    requires n in AllNodes(es) && n.Comp? && s in GenSites(n.gens)
    ensures SiteExpr(s) in AllNodes(es)
  {
    GenSiteExpr(n, s);
    var e :| e in es && n in Nodes(e);
    NodesNest(e, n, SiteExpr(s));
  }

  /** Every binding site binds from an expression the walk visits. */
  lemma SiteExprIsNode(fn: Function, s: Site)
    requires s in FunctionSites(fn)
    ensures SiteExpr(s) in FunctionNodes(fn)
  {
    if s in StmtSites(fn.body) {
      StmtSiteExprs(fn.body, s);
      TopIsNode(TopExprs(fn.body), SiteExpr(s));
    } else {
      var n := CompOfSite(FunctionNodes(fn), s);
      CompSiteExpr(TopExprs(fn.body), n, s);
    }
  }

  // ---------------------------------------------------------------- what stands in a function's text

  /** `n` stands in `e`, at any depth: in every operand, test, index, comprehension clause and part. */
  ghost predicate Occurs(n: Expr, e: Expr)
    decreases e
  {
    n == e || match e
      case Name(_) => false
      case StrLit(_) => false
      case Attr(base, _) => Occurs(n, base)
      case Call(_, args) => exists a :: a in args && Occurs(n, a)
      case Or(values) => exists v :: v in values && Occurs(n, v)
      case IfExp(test, body, orelse) => Occurs(n, test) || Occurs(n, body) || Occurs(n, orelse)
      case Subscript(base, index, _) => Occurs(n, base) || Occurs(n, index)
      case Comp(_, elt, gens) => Occurs(n, elt) || exists g :: g in gens && OccursInClause(n, g)
      case Other(parts) => exists p :: p in parts && Occurs(n, p)
  }

  ghost predicate OccursInClause(n: Expr, g: Generator)
    decreases g
  {
    Occurs(n, g.iter) || exists c :: c in g.conds && Occurs(n, c)
  }

  /** `t` is one of these statements or stands in the body of one, at any depth. */
  ghost predicate StatementIn(t: Stmt, ss: seq<Stmt>)
    decreases ss
  {
    exists s :: s in ss && (t == s || (s.For? && StatementIn(t, s.body)) || (s.Block? && StatementIn(t, s.body)))
  }

  /** `e` is an expression of the statement itself. */
  predicate Directly(t: Stmt, e: Expr) {
    match t
    case Assign(_, value) => e == value
    case For(_, iter, _) => e == iter
    case Block(exprs, _) => e in exprs
  }

  ghost predicate OccursIn(n: Expr, body: seq<Stmt>) {
    exists t, e :: StatementIn(t, body) && Directly(t, e) && Occurs(n, e)
  }

  predicate BindsDirectly(t: Stmt, s: Site) {
    match t
    case Assign(targets, value) => s.Bind? && s.name in targets && s.value == value
    case For(target, iter, _) => s.Loop? && target == Some(s.name) && s.iterable == iter
    case Block(_, _) => false
  }

  /** A comprehension clause that binds its target. */
  predicate ClauseBinds(n: Expr, s: Site) {
    n.Comp? && s.Loop? && exists g :: g in n.gens && g.target == Some(s.name) && g.iter == s.iterable
  }

  /** The text binds a name here: by an assignment, a loop or a comprehension clause, at any depth. */
  ghost predicate Binds(body: seq<Stmt>, s: Site) {
    || (exists t :: StatementIn(t, body) && BindsDirectly(t, s))
    || (exists n :: OccursIn(n, body) && ClauseBinds(n, s))
  }

  ghost predicate OccursBelow(n: Expr, e: Expr) {
    exists k :: k in Kids(e) && Occurs(n, k)
  }

  lemma KidsOccur(e: Expr, n: Expr)
    ensures Occurs(n, e) <==> n == e || OccursBelow(n, e)
  {
    match e
    case Attr(_, _) => FixedKidsOccur(e, n);
    case IfExp(_, _, _) => FixedKidsOccur(e, n);
    case Subscript(_, _, _) => FixedKidsOccur(e, n);
    case Comp(_, _, _) => CompKidsOccur(e, n);
    case _ => ListKidsOccur(e, n);
  }

  lemma FixedKidsOccur(e: Expr, n: Expr)
    requires e.Attr? || e.IfExp? || e.Subscript?
    ensures Occurs(n, e) <==> n == e || OccursBelow(n, e)
  {
    match e
    case Attr(base, _) => assert base in Kids(e);
    case IfExp(test, body, orelse) => assert test in Kids(e) && body in Kids(e) && orelse in Kids(e);
    case Subscript(base, index, _) => assert base in Kids(e) && index in Kids(e);
  }

  lemma ListKidsOccur(e: Expr, n: Expr)
    requires !e.Attr? && !e.IfExp? && !e.Subscript? && !e.Comp?
    ensures Occurs(n, e) <==> n == e || OccursBelow(n, e)
  {
  }

  lemma CompKidsOccur(e: Expr, n: Expr)
    requires e.Comp?
    ensures OccursBelow(n, e) <==> Occurs(n, e.elt) || exists g :: g in e.gens && OccursInClause(n, g)
  {
    assert e.elt in Kids(e);
    if k :| k in Kids(e) && Occurs(n, k) && k != e.elt {
      PartIsInClause(e.gens, k, n);
    }
    if g :| g in e.gens && OccursInClause(n, g) {
      var k := PartOfClause(e.gens, g, n);
      assert k in Kids(e);
    }
  }

  lemma PartIsInClause(gens: seq<Generator>, k: Expr, n: Expr)
    requires k in GenParts(gens) && Occurs(n, k)
    ensures exists g :: g in gens && OccursInClause(n, g)
  {
    var g :| g in gens && (k == g.iter || k in g.conds);
    assert OccursInClause(n, g);
  }

  lemma PartOfClause(gens: seq<Generator>, g: Generator, n: Expr) returns (k: Expr)
    requires g in gens && OccursInClause(n, g)
    ensures k in GenParts(gens) && Occurs(n, k)
  {
    k :| (k == g.iter || k in g.conds) && Occurs(n, k);
  }

  lemma NodesStep(e: Expr, n: Expr)
    ensures n in Nodes(e) <==> n == e || exists k :: k in Kids(e) && n in Nodes(k)
  {
  }

  /** The walk of an expression visits exactly what stands in it. */
  lemma {:induction false} NodesOccur(e: Expr, n: Expr)
    ensures n in Nodes(e) <==> Occurs(n, e)
    decreases e
  {
    forall k | k in Kids(e) ensures n in Nodes(k) <==> Occurs(n, k) {
      NodesOccur(k, n);
    }
    NodesStep(e, n);
    KidsOccur(e, n);
  }

  ghost predicate StatementAt(t: Stmt, s: Stmt) {
    t == s || (s.For? && StatementIn(t, s.body)) || (s.Block? && StatementIn(t, s.body))
  }

  lemma StatementStep(t: Stmt, ss: seq<Stmt>)
    requires ss != []
    ensures StatementIn(t, ss) <==> StatementAt(t, ss[0]) || StatementIn(t, ss[1..])
  {
    if StatementIn(t, ss) {
      var s :| s in ss && StatementAt(t, s);
      assert s == ss[0] || s in ss[1..];
    }
    if StatementIn(t, ss[1..]) {
      var s :| s in ss[1..] && StatementAt(t, s);
      assert s in ss;
    } else if StatementAt(t, ss[0]) {
      assert ss[0] in ss;
    }
  }

  lemma {:induction false} TopIsDirect(ss: seq<Stmt>, e: Expr)
    requires e in TopExprs(ss)
    ensures exists t :: StatementIn(t, ss) && Directly(t, e)
    decreases ss
  {
    if e in TopExprs(ss[1..]) {
      TopIsDirect(ss[1..], e);
      var t :| StatementIn(t, ss[1..]) && Directly(t, e);
      StatementStep(t, ss);
    } else if !ss[0].Assign? && e in TopExprs(ss[0].body) {
      TopIsDirect(ss[0].body, e);
      var t :| StatementIn(t, ss[0].body) && Directly(t, e);
      StatementStep(t, ss);
    } else {
      StatementStep(ss[0], ss);
      assert Directly(ss[0], e);
    }
  }

  lemma {:induction false} DirectIsTop(ss: seq<Stmt>, t: Stmt, e: Expr)
    requires StatementIn(t, ss) && Directly(t, e)
    ensures e in TopExprs(ss)
    decreases ss
  {
    StatementStep(t, ss);
    if StatementIn(t, ss[1..]) {
      DirectIsTop(ss[1..], t, e);
    } else if t != ss[0] {
      DirectIsTop(ss[0].body, t, e);
    }
  }

  /** The walk of a function visits exactly the expressions that stand in its text. */
  lemma NodesAreOccurrences(fn: Function, n: Expr)
    ensures n in FunctionNodes(fn) <==> OccursIn(n, fn.body)
  {
    if n in FunctionNodes(fn) {
      var e :| e in TopExprs(fn.body) && n in Nodes(e);
      TopIsDirect(fn.body, e);
      NodesOccur(e, n);
    }
    if t, e :| StatementIn(t, fn.body) && Directly(t, e) && Occurs(n, e) {
      DirectIsTop(fn.body, t, e);
      NodesOccur(e, n);
    }
  }

  lemma {:induction false} AssignSitesBind(targets: seq<string>, value: Expr, s: Site)
    ensures s in AssignSites(targets, value) <==> s.Bind? && s.name in targets && s.value == value
  {
    if targets != [] {
      AssignSitesBind(targets[1..], value, s);
    }
  }

  lemma {:induction false} GenSitesBind(gens: seq<Generator>, s: Site)
    ensures s in GenSites(gens) <==> s.Loop? && exists g :: g in gens && g.target == Some(s.name) && g.iter == s.iterable
  {
    if gens != [] {
      GenSitesBind(gens[1..], s);
      assert forall g :: g in gens <==> g == gens[0] || g in gens[1..];
    }
  }

  lemma {:induction false} SiteIsDirect(ss: seq<Stmt>, s: Site)
    requires s in StmtSites(ss)
    ensures exists t :: StatementIn(t, ss) && BindsDirectly(t, s)
    decreases ss
  {
    if s in StmtSites(ss[1..]) {
      SiteIsDirect(ss[1..], s);
      var t :| StatementIn(t, ss[1..]) && BindsDirectly(t, s);
      StatementStep(t, ss);
    } else if !ss[0].Assign? && s in StmtSites(ss[0].body) {
      SiteIsDirect(ss[0].body, s);
      var t :| StatementIn(t, ss[0].body) && BindsDirectly(t, s);
      StatementStep(t, ss);
    } else {
      StatementStep(ss[0], ss);
      if ss[0].Assign? {
        AssignSitesBind(ss[0].targets, ss[0].value, s);
      }
      assert BindsDirectly(ss[0], s);
    }
  }

  lemma {:induction false} DirectIsSite(ss: seq<Stmt>, t: Stmt, s: Site)
    requires StatementIn(t, ss) && BindsDirectly(t, s)
    ensures s in StmtSites(ss)
    decreases ss
  {
    StatementStep(t, ss);
    if StatementIn(t, ss[1..]) {
      DirectIsSite(ss[1..], t, s);
    } else if t != ss[0] {
      DirectIsSite(ss[0].body, t, s);
    } else if t.Assign? {
      AssignSitesBind(t.targets, t.value, s);
    }
  }

  /** The binding sites are exactly the places of the text that bind a name. */
  lemma SitesAreBindings(fn: Function, s: Site)
    ensures s in FunctionSites(fn) <==> Binds(fn.body, s)
  {
    if s in StmtSites(fn.body) {
      SiteIsDirect(fn.body, s);
    } else if s in CompSites(FunctionNodes(fn)) {
      var n := CompOfSite(FunctionNodes(fn), s);
      GenSitesBind(n.gens, s);
      NodesAreOccurrences(fn, n);
    }
    if t :| StatementIn(t, fn.body) && BindsDirectly(t, s) {
      DirectIsSite(fn.body, t, s);
    } else if n :| OccursIn(n, fn.body) && ClauseBinds(n, s) {
      GenSitesBind(n.gens, s);
      NodesAreOccurrences(fn, n);
    }
  }
}
