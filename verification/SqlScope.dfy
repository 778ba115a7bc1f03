/**
  The validator over a parsed SQL statement: which statement nodes it may contain, and what
  each relation in it may name, under the scoping of WITH clauses.

  The parse tree is the JSON the parser prints.  The theorem is about positions in that tree:
  at every position of an accepted tree, the statement kind is a permitted one and the relation
  there is a common table expression in scope, an allow-listed table, or in
  `information_schema`.
 */
module SqlScope {
  import opened Common

  datatype Json =
    | Null
    | Bool(b: bool)
    | Num(n: int)
    | Str(s: string)
    | Arr(items: seq<Json>)
    | Obj(fields: seq<Field>)

  datatype Field = Field(key: string, val: Json)

  datatype Error =
    | EmptyQuery
    | SeveralStatements
    | NotReadOnly(key: string)
    | SchemaNotReadable(schema: Json)
    | TableNotAllowed(rel: Json)
    | Wildcard
    | DenyListed          // a column or function the deny-lists refuse
    | Malformed           // a shape on which the source raises

  const ALLOWED_STMTS: set<string> := {"RawStmt", "SelectStmt", "ExplainStmt", "VariableShowStmt"}

  const FORBIDDEN_NODES: set<string> := {"intoClause", "lockingClause", "XmlExpr", "XmlSerialize", "RangeTableFunc"}

  predicate EndsWith(s: string, suffix: string) {
    |suffix| <= |s| && s[|s| - |suffix|..] == suffix
  }

  /** `node.get(key)`, absent on anything that is not an object. */
  function Get(node: Json, key: string): (r: Json)
    ensures r.Null? || (node.Obj? && r < node && Field(key, r) in node.fields)
  {
    if node.Obj? then GetField(node, node.fields, key) else Null
  }

  function GetField(node: Json, fields: seq<Field>, key: string): (r: Json)
    requires node.Obj? && forall f :: f in fields ==> f in node.fields
    ensures r.Null? || (r < node && Field(key, r) in node.fields)
    ensures (forall f :: f in fields ==> f.key != key) ==> r.Null?
    decreases |fields|
  {
    if fields == [] then Null
    else if fields[0].key == key then
      assert fields[0] in node.fields;
      fields[0].val
    else GetField(node, fields[1..], key)
  }

  function Items(node: Json): (r: seq<Json>)
    ensures forall j :: j in r ==> j < node
  {
    if node.Arr? then node.items else []
  }

  predicate Truthy(node: Json) {
    match node
    case Null => false
    case Bool(b) => b
    case Num(n) => n != 0
    case Str(s) => s != ""
    case Arr(items) => items != []
    case Obj(fields) => fields != []
  }

  /** Python's falsy values. */
  lemma TruthyExactly(node: Json)
    ensures !Truthy(node) <==> node in {Null, Bool(false), Num(0), Str(""), Arr([]), Obj([])}
  {
  }

  // ---------------------------------------------------------------- WITH clauses

  function CteEntries(stmt: Json): (r: seq<Json>)
    ensures forall c :: c in r ==> c < stmt
  {
    Items(Get(Get(stmt, "withClause"), "ctes"))
  }

  predicate Recursive(stmt: Json) {
    Truthy(Get(Get(stmt, "withClause"), "recursive"))
  }

  function CteQuery(cte: Json): (r: Json)
    ensures r.Null? || r < cte
  {
    Get(Get(cte, "CommonTableExpr"), "ctequery")
  }

  /** The name an entry defines, if it defines one. */
  function CteName(cte: Json): set<string> {
    var name := Get(Get(cte, "CommonTableExpr"), "ctename");
    if name.Str? && name.s != "" then {name.s} else {}
  }

  /** The names the given entries define. */
  function CteNames(entries: seq<Json>): set<string> {
    if entries == [] then {} else CteNames(entries[..|entries| - 1]) + CteName(entries[|entries| - 1])
  }

  lemma CteNamesGrow(entries: seq<Json>, k: nat)
    requires k < |entries|
    ensures CteNames(entries[..k + 1]) == CteNames(entries[..k]) + CteName(entries[k])
  {
    assert entries[..k + 1][..k] == entries[..k];
  }

  /** What the `k`-th entry's query sees of its siblings: all of them under RECURSIVE, else the earlier ones. */
  function Siblings(stmt: Json, k: nat): set<string>
    requires k <= |CteEntries(stmt)|
  {
    if Recursive(stmt) then CteNames(CteEntries(stmt)) else CteNames(CteEntries(stmt)[..k])
  }

  // ---------------------------------------------------------------- what each node must satisfy

  /** A relation names a CTE in scope, an allow-listed table, or something in `information_schema`. */
  predicate Resolves(tables: set<string>, rel: Json, scope: set<string>) {
    var schema, name := Get(rel, "schemaname"), Get(rel, "relname");
    || schema == Str("information_schema")
    || (schema.Null? && name.Str? && name.s in scope)
    || ((schema.Null? || schema == Str("public")) && name.Str? && name.s in tables)
  }

  predicate PermittedKey(key: string) {
    (EndsWith(key, "Stmt") ==> key in ALLOWED_STMTS) && key !in FORBIDDEN_NODES
  }

  predicate HasStar(ref: Json) {
    exists f :: f in Items(Get(ref, "fields")) && f.Obj? && exists g :: g in f.fields && g.key == "A_Star"
  }

  predicate NoForbiddenClause(stmt: Json) {
    forall k :: k in FORBIDDEN_NODES ==> !Truthy(Get(stmt, k))
  }

  /** What the walk checks below `node`, apart from the deny-lists. */
  predicate Accepts(tables: set<string>, node: Json, visible: set<string>)
    decreases node, 1
  {
    match node
    case Arr(items) => forall j :: j in items ==> Accepts(tables, j, visible)
    case Obj(fields) => forall f :: f in fields ==> PermittedKey(f.key) && AcceptsField(tables, f, visible)
    case _ => true
  }

  predicate AcceptsField(tables: set<string>, f: Field, visible: set<string>)
    decreases f, 0
  {
    if f.key == "SelectStmt" then f.val.Obj? && AcceptsSelect(tables, f.val, visible)
    else if f.key == "RangeVar" && f.val.Obj? then Resolves(tables, f.val, visible)
    else if f.key == "ColumnRef" && f.val.Obj? then !HasStar(f.val)
    else Accepts(tables, f.val, visible)
  }

  predicate AcceptsSelect(tables: set<string>, stmt: Json, outer: set<string>)
    requires stmt.Obj?
    decreases stmt, 0, 2
  {
    && NoForbiddenClause(stmt)
    && AcceptsCtes(tables, stmt, outer, |CteEntries(stmt)|)
    && (forall f :: f in stmt.fields && f.key != "withClause" ==>
          Accepts(tables, f.val, outer + CteNames(CteEntries(stmt))))
  }

  /** The first `n` queries of the WITH clause. */
  predicate AcceptsCtes(tables: set<string>, stmt: Json, outer: set<string>, n: nat)
    requires n <= |CteEntries(stmt)|
    decreases stmt, 0, 1
  {
    forall k :: 0 <= k < n ==> AcceptsCte(tables, stmt, outer, k)
  }

  predicate AcceptsCte(tables: set<string>, stmt: Json, outer: set<string>, k: nat)
    requires k < |CteEntries(stmt)|
    decreases stmt, 0, 0
  {
    var q := CteQuery(CteEntries(stmt)[k]);
    q.Null? || Accepts(tables, q, outer + Siblings(stmt, k))
  }

  // ---------------------------------------------------------------- the walker

  /** The walker: `error` is the variable its inner functions share. */
  class Validator {
    const tables: set<string>
    var error: Option<Error>

    constructor (tables: set<string>)
      ensures this.tables == tables && error.None?
    {
      this.tables := tables;
      error := None;
    }

    /** An error set between the two values is a finding of the checks modelled here. */
    static predicate NewFinding(before: Option<Error>, after: Option<Error>) {
      after != before && after.Some? && !after.value.DenyListed?
    }

    method InspectRelation(val: Json, visible: set<string>)
      modifies this
      ensures error.None? <==> old(error).None? && Resolves(tables, val, visible)
      ensures error != old(error) ==> !Resolves(tables, val, visible)
    {
      var schema, rel := Get(val, "schemaname"), Get(val, "relname");
      if schema == Str("information_schema") {
        return;
      }
      if schema.Null? && rel.Str? && rel.s in visible {
        return;
      }
      if !(schema.Null? || schema == Str("public")) {
        error := Some(SchemaNotReadable(schema));
        return;
      }
      if !(rel.Str? && rel.s in tables) {
        error := Some(TableNotAllowed(rel));
      }
    }

    method Walk(node: Json, visible: set<string>)
      modifies this
      ensures old(error).Some? ==> error == old(error)
      ensures error.None? ==> Accepts(tables, node, visible)
      ensures NewFinding(old(error), error) ==> !Accepts(tables, node, visible)
      decreases node, 2
    {
      if error.Some? {
        return;
      }
      match node
      case Arr(items) =>
        for i := 0 to |items|
          invariant error.None? ==> forall j :: 0 <= j < i ==> Accepts(tables, items[j], visible)
          invariant NewFinding(old(error), error) ==> !Accepts(tables, node, visible)
        {
          Walk(items[i], visible);
        }
      case Obj(fields) =>
        for i := 0 to |fields|
          invariant error.None? ==>
            forall j :: 0 <= j < i ==> PermittedKey(fields[j].key) && AcceptsField(tables, fields[j], visible)
          invariant NewFinding(old(error), error) ==> !Accepts(tables, node, visible)
        {
          if !PermittedKey(fields[i].key) {
            error := Some(NotReadOnly(fields[i].key));
            return;
          }
          WalkField(fields[i], visible);
        }
      case _ =>
    }

    /** The branches on one key of a dictionary. */
    method WalkField(f: Field, visible: set<string>)
      modifies this
      ensures old(error).Some? ==> error.Some?
      ensures error.None? ==> AcceptsField(tables, f, visible)
      ensures NewFinding(old(error), error) ==> !AcceptsField(tables, f, visible)
      decreases f, 1
    {
      if f.key == "SelectStmt" {
        if !f.val.Obj? {
          error := Some(Malformed);
        } else {
          WalkSelect(f.val, visible);
        }
      } else if f.key == "RangeVar" && f.val.Obj? {
        InspectRelation(f.val, visible);
      } else if f.key == "ColumnRef" && f.val.Obj? {
        if HasStar(f.val) {
          error := Some(Wildcard);
        } else {
          RefuseColumn();
        }
      } else {
        if f.key == "FuncCall" && f.val.Obj? {
          RefuseColumn();
        }
        Walk(f.val, visible);
      }
    }

    /** The column and function deny-lists: they may refuse anything. */
    method RefuseColumn()
      modifies this
      ensures error == old(error) || error == Some(DenyListed)
    {
      if * {
        error := Some(DenyListed);
      }
    }

    method WalkSelect(stmt: Json, outer: set<string>)
      requires stmt.Obj?
      modifies this
      ensures old(error).Some? ==> error.Some?
      ensures error.None? ==> AcceptsSelect(tables, stmt, outer)
      ensures NewFinding(old(error), error) ==> !AcceptsSelect(tables, stmt, outer)
      decreases stmt, 1
    {
      if k :| k in FORBIDDEN_NODES && Truthy(Get(stmt, k)) {
        error := Some(NotReadOnly(k));
        return;
      }
      WalkCtes(stmt, outer);
      WalkBody(stmt, outer + CteNames(CteEntries(stmt)));
    }

    /** The queries of the WITH clause, each seeing its siblings by the rule for its clause. */
    method WalkCtes(stmt: Json, outer: set<string>)
      requires stmt.Obj?
      modifies this
      ensures old(error).Some? ==> error.Some?
      ensures error.None? ==> AcceptsCtes(tables, stmt, outer, |CteEntries(stmt)|)
      ensures NewFinding(old(error), error) ==> !AcceptsCtes(tables, stmt, outer, |CteEntries(stmt)|)
      decreases stmt, 0, 1
    {
      var entries := CteEntries(stmt);
      var names := CteNames(entries);
      var prior: set<string> := {};
      for k := 0 to |entries|
        invariant prior == CteNames(entries[..k])
        invariant old(error).Some? ==> error.Some?
        invariant error.None? ==> AcceptsCtes(tables, stmt, outer, k)
        invariant NewFinding(old(error), error) ==> !AcceptsCtes(tables, stmt, outer, |entries|)
      {
        WalkCte(stmt, outer, k, outer + (if Recursive(stmt) then names else prior));
        CteNamesGrow(entries, k);
        prior := prior + CteName(entries[k]);
      }
    }

    method WalkCte(stmt: Json, ghost outer: set<string>, k: nat, visible: set<string>)
      requires k < |CteEntries(stmt)| && visible == outer + Siblings(stmt, k)
      modifies this
      ensures old(error).Some? ==> error == old(error)
      ensures error.None? && AcceptsCtes(tables, stmt, outer, k) ==> AcceptsCtes(tables, stmt, outer, k + 1)
      ensures NewFinding(old(error), error) ==> !AcceptsCtes(tables, stmt, outer, |CteEntries(stmt)|)
      decreases stmt, 0, 0
    {
      assert CteEntries(stmt)[k] in CteEntries(stmt);
      var query := CteQuery(CteEntries(stmt)[k]);
      if !query.Null? {
        Walk(query, visible);
      }
      assert AcceptsCte(tables, stmt, outer, k) <==> query.Null? || Accepts(tables, query, visible);
    }

    /** Everything else in the SELECT, which sees all of its CTEs. */
    method WalkBody(stmt: Json, visible: set<string>)
      requires stmt.Obj?
      modifies this
      ensures old(error).Some? ==> error.Some?
      ensures error.None? ==>
        forall f :: f in stmt.fields && f.key != "withClause" ==> Accepts(tables, f.val, visible)
      ensures NewFinding(old(error), error) ==>
        exists f :: f in stmt.fields && f.key != "withClause" && !Accepts(tables, f.val, visible)
      decreases stmt, 0
    {
      for i := 0 to |stmt.fields|
        invariant old(error).Some? ==> error.Some?
        invariant error.None? ==> forall j :: 0 <= j < i && stmt.fields[j].key != "withClause" ==>
          Accepts(tables, stmt.fields[j].val, visible)
        invariant NewFinding(old(error), error) ==>
          exists f :: f in stmt.fields && f.key != "withClause" && !Accepts(tables, f.val, visible)
      {
        if stmt.fields[i].key != "withClause" {
          Walk(stmt.fields[i].val, visible);
        }
      }
    }
  }

  /** Validate the statements the parser returned. */
  method ValidateSql(stmts: seq<Json>, tables: set<string>) returns (error: Option<Error>)
    ensures error.None? ==> |stmts| == 1
    ensures error.None? ==> forall path :: WellScopedAt(tables, Node(Arr(stmts), {}), path)
    ensures error.Some? && |stmts| == 1 && !error.value.DenyListed? ==> !Accepts(tables, Arr(stmts), {})
  {
    if stmts == [] {
      return Some(EmptyQuery);
    }
    if |stmts| > 1 {
      return Some(SeveralStatements);
    }
    var v := new Validator(tables);
    v.Walk(Arr(stmts), {});
    error := v.error;
    if error.None? {
      forall path ensures WellScopedAt(tables, Node(Arr(stmts), {}), path) {
        AcceptedIsWellScoped(tables, Node(Arr(stmts), {}), path);
      }
    }
  }

  // ---------------------------------------------------------------- positions and their scope

  /**
    A position with the CTE names in scope there, by the rules for WITH: a query of the clause
    sees its enclosing scope and its siblings, the body sees them all.  An operand of a set
    operation is a SELECT of its own.
   */
  datatype Position = Node(node: Json, scope: set<string>) | Select(body: Json, scope: set<string>)

  datatype Hop = Item(i: nat) | Into(i: nat) | Cte(k: nat)

  const LEAVES: set<string> := {"RangeVar", "ColumnRef"}

  /** This entry of a WITH clause defines the name `x`. */
  predicate Defines(entry: Json, x: string) {
    x != "" && Get(Get(entry, "CommonTableExpr"), "ctename") == Str(x)
  }

  /** Query `k` of the clause sees `x`: an earlier entry defines it, or any entry under RECURSIVE. */
  predicate QuerySees(stmt: Json, k: nat, x: string) {
    exists j :: 0 <= j < |CteEntries(stmt)| && (j < k || Recursive(stmt)) && Defines(CteEntries(stmt)[j], x)
  }

  /** The body sees `x`: some entry defines it. */
  predicate BodySees(stmt: Json, x: string) {
    exists j :: 0 <= j < |CteEntries(stmt)| && Defines(CteEntries(stmt)[j], x)
  }

  lemma NameIsDefined(entry: Json, x: string)
    ensures x in CteName(entry) <==> Defines(entry, x)
  {
  }

  lemma {:induction false} NamesAreDefined(entries: seq<Json>, x: string)
    ensures x in CteNames(entries) <==> exists j :: 0 <= j < |entries| && Defines(entries[j], x)
  {
    if entries != [] {
      var n := |entries| - 1;
      NamesAreDefined(entries[..n], x);
      NameIsDefined(entries[n], x);
      assert forall j :: 0 <= j < n ==> entries[..n][j] == entries[j];
    }
  }

  /** What a query of the clause sees of it, by the rules for WITH, and what the body sees. */
  lemma ScopeRule(stmt: Json, k: nat, x: string)
    requires k <= |CteEntries(stmt)|
    ensures x in Siblings(stmt, k) <==> QuerySees(stmt, k, x)
    ensures x in CteNames(CteEntries(stmt)) <==> BodySees(stmt, x)
  {
    var entries := CteEntries(stmt);
    NamesAreDefined(entries, x);
    NamesAreDefined(entries[..k], x);
    assert forall j :: 0 <= j < k ==> entries[..k][j] == entries[j];
  }

  /** The names in scope in query `k` of a clause that stands in `outer`. */
  ghost function QueryScope(stmt: Json, k: nat, outer: set<string>): (r: set<string>)
    requires k < |CteEntries(stmt)|
    ensures forall x :: x in r <==> x in outer || QuerySees(stmt, k, x)
  {
    forall x ensures x in Siblings(stmt, k) <==> QuerySees(stmt, k, x) { ScopeRule(stmt, k, x); }
    outer + Siblings(stmt, k)
  }

  ghost function BodyScope(stmt: Json, outer: set<string>): (r: set<string>)
    ensures forall x :: x in r <==> x in outer || BodySees(stmt, x)
  {
    forall x ensures x in CteNames(CteEntries(stmt)) <==> BodySees(stmt, x) { ScopeRule(stmt, 0, x); }
    outer + CteNames(CteEntries(stmt))
  }

  ghost function Go(p: Position, h: Hop): Option<Position> {
    match p
    case Node(node, scope) =>
      if h.Item? && node.Arr? && h.i < |node.items| then Some(Node(node.items[h.i], scope))
      else if h.Into? && node.Obj? && h.i < |node.fields| then
        var f := node.fields[h.i];
        if f.key == "SelectStmt" then Some(Select(f.val, scope))
        else if f.key in LEAVES && f.val.Obj? then None
        else Some(Node(f.val, scope))
      else None
    case Select(body, scope) =>
      if h.Cte? && h.k < |CteEntries(body)| then
        Some(Node(CteQuery(CteEntries(body)[h.k]), QueryScope(body, h.k, scope)))
      else if h.Into? && body.Obj? && h.i < |body.fields| then
        var f := body.fields[h.i];
        var inner := BodyScope(body, scope);
        if f.key == "withClause" || f.key == "SelectStmt" || f.key in LEAVES then None
        else if f.key in {"larg", "rarg"} then Some(Select(f.val, inner))
        else Some(Node(f.val, inner))
      else None
  }

  ghost function Locate(p: Position, path: seq<Hop>): Option<Position>
    decreases |path|
  {
    if path == [] then Some(p)
    else match Go(p, path[0])
         case None => None
         case Some(q) => Locate(q, path[1..])
  }

  /** `SELECT` and `EXPLAIN` are the only statements, beside the wrapper and `SHOW`. */
  ghost predicate ReadOnlyKey(key: string) {
    && (forall stem :: key == stem + "Stmt" ==> stem in {"Raw", "Select", "Explain", "VariableShow"})
    && key !in {"intoClause", "lockingClause", "XmlExpr", "XmlSerialize", "RangeTableFunc"}
  }

  /** A table on the list, in no schema or in `public`; anything in `information_schema`; or, without a schema, a name in scope. */
  ghost predicate ReadableRelation(tables: set<string>, rel: Json, scope: set<string>) {
    || Get(rel, "schemaname") == Str("information_schema")
    || exists name :: Get(rel, "relname") == Str(name) && (
         || (Get(rel, "schemaname") == Null && (name in scope || name in tables))
         || (Get(rel, "schemaname") == Str("public") && name in tables))
  }

  /** No part of a column reference is the star. */
  ghost predicate NoStar(ref: Json) {
    Get(ref, "fields").Arr? ==>
      forall part, val :: part in Get(ref, "fields").items && part.Obj? ==> Field("A_Star", val) !in part.fields
  }

  /** Only permitted statement nodes and clauses here, no wildcard, and relations that resolve in scope. */
  ghost predicate WellScoped(tables: set<string>, p: Position) {
    match p
    case Node(node, scope) =>
      node.Obj? ==> forall f :: f in node.fields ==> WellScopedField(tables, f, scope)
    case Select(body, _) =>
      forall key :: key in {"intoClause", "lockingClause", "XmlExpr", "XmlSerialize", "RangeTableFunc"} ==> !Truthy(Get(body, key))
  }

  ghost predicate WellScopedField(tables: set<string>, f: Field, scope: set<string>) {
    && ReadOnlyKey(f.key)
    && (f.key == "RangeVar" && f.val.Obj? ==> ReadableRelation(tables, f.val, scope))
    && (f.key == "ColumnRef" && f.val.Obj? ==> NoStar(f.val))
  }

  lemma AcceptedField(tables: set<string>, f: Field, scope: set<string>)
    requires PermittedKey(f.key) && AcceptsField(tables, f, scope)
    ensures WellScopedField(tables, f, scope)
  {
    PermittedIsReadOnly(f.key);
    ResolvesIsReadable(tables, f.val, scope);
    StarIsFound(f.val);
  }

  lemma PermittedIsReadOnly(key: string)
    ensures PermittedKey(key) <==> ReadOnlyKey(key)
  {
    if EndsWith(key, "Stmt") {
      var stem := key[..|key| - 4];
      assert key == stem + "Stmt";
      StemsAllowed(stem);
    }
    forall stem | key == stem + "Stmt" ensures PermittedKey(key) ==> stem in {"Raw", "Select", "Explain", "VariableShow"} {
      StemsAllowed(stem);
    }
  }

  lemma StemsAllowed(stem: string)
    ensures EndsWith(stem + "Stmt", "Stmt")
    ensures stem + "Stmt" in ALLOWED_STMTS <==> stem in {"Raw", "Select", "Explain", "VariableShow"}
  {
    forall other | other in {"Raw", "Select", "Explain", "VariableShow"}
      ensures stem + "Stmt" == other + "Stmt" <==> stem == other
    {
      assert (stem + "Stmt")[..|stem + "Stmt"| - 4] == stem;
      assert (other + "Stmt")[..|other + "Stmt"| - 4] == other;
    }
    assert "Raw" + "Stmt" == "RawStmt" && "Select" + "Stmt" == "SelectStmt";
    assert "Explain" + "Stmt" == "ExplainStmt" && "VariableShow" + "Stmt" == "VariableShowStmt";
  }

  lemma ResolvesIsReadable(tables: set<string>, rel: Json, scope: set<string>)
    ensures Resolves(tables, rel, scope) <==> ReadableRelation(tables, rel, scope)
  {
    var name := Get(rel, "relname");
    if name.Str? {
      assert name == Str(name.s);
    }
  }

  lemma StarIsFound(ref: Json)
    ensures !HasStar(ref) <==> NoStar(ref)
  {
    if f :| f in Items(Get(ref, "fields")) && f.Obj? && exists g :: g in f.fields && g.key == "A_Star" {
      var g :| g in f.fields && g.key == "A_Star";
      assert g == Field("A_Star", g.val);
    }
  }

  ghost predicate WellScopedAt(tables: set<string>, p: Position, path: seq<Hop>) {
    var q := Locate(p, path);
    q.Some? ==> WellScoped(tables, q.value)
  }

  lemma {:induction false} MoreScopeAccepts(tables: set<string>, node: Json, small: set<string>, large: set<string>)
    requires small <= large && Accepts(tables, node, small)
    ensures Accepts(tables, node, large)
    decreases node, 1
  {
    match node
    case Arr(items) =>
      forall j | j in items ensures Accepts(tables, j, large) {
        MoreScopeAccepts(tables, j, small, large);
      }
    case Obj(fields) =>
      forall f | f in fields ensures AcceptsField(tables, f, large) {
        if f.key == "SelectStmt" {
          MoreScopeAcceptsSelect(tables, f.val, small, large);
        } else if f.key in LEAVES && f.val.Obj? {
        } else {
          MoreScopeAccepts(tables, f.val, small, large);
        }
      }
    case _ =>
  }

  lemma {:induction false} MoreScopeAcceptsSelect(tables: set<string>, stmt: Json, small: set<string>, large: set<string>)
    requires small <= large && stmt.Obj? && AcceptsSelect(tables, stmt, small)
    ensures AcceptsSelect(tables, stmt, large)
    decreases stmt, 0, 1
  {
    forall k | 0 <= k < |CteEntries(stmt)| ensures AcceptsCte(tables, stmt, large, k) {
      MoreScopeAcceptsCte(tables, stmt, small, large, k);
    }
    var names := CteNames(CteEntries(stmt));
    forall f | f in stmt.fields && f.key != "withClause" ensures Accepts(tables, f.val, large + names) {
      MoreScopeAccepts(tables, f.val, small + names, large + names);
    }
  }

  lemma {:induction false} MoreScopeAcceptsCte(
      tables: set<string>, stmt: Json, small: set<string>, large: set<string>, k: nat)
    requires small <= large && k < |CteEntries(stmt)| && AcceptsCte(tables, stmt, small, k)
    ensures AcceptsCte(tables, stmt, large, k)
    decreases stmt, 0, 0
  {
    assert CteEntries(stmt)[k] in CteEntries(stmt);
    var q := CteQuery(CteEntries(stmt)[k]);
    if !q.Null? {
      MoreScopeAccepts(tables, q, small + Siblings(stmt, k), large + Siblings(stmt, k));
    }
  }

  lemma AcceptsGet(tables: set<string>, node: Json, key: string, visible: set<string>)
    requires Accepts(tables, node, visible) && key != "SelectStmt" && key !in LEAVES
    ensures Accepts(tables, Get(node, key), visible)
  {
    var r := Get(node, key);
    if !r.Null? {
      assert AcceptsField(tables, Field(key, r), visible);
    }
  }

  /**
    What the walk leaves at a position.  An operand of a set operation carries no `SelectStmt`
    wrapper, so the walk passes through it as an ordinary node, with less in scope.
   */
  predicate Walked(tables: set<string>, p: Position) {
    match p
    case Node(node, scope) => Accepts(tables, node, scope)
    case Select(body, scope) => (body.Obj? && AcceptsSelect(tables, body, scope)) || Accepts(tables, body, scope)
  }

  lemma WalkedIsWellScoped(tables: set<string>, p: Position)
    requires Walked(tables, p)
    ensures WellScoped(tables, p)
  {
    if p.Node? && p.node.Obj? {
      forall f | f in p.node.fields ensures WellScopedField(tables, f, p.scope) {
        AcceptedField(tables, f, p.scope);
      }
    } else if p.Select? {
      forall k | k in FORBIDDEN_NODES ensures !Truthy(Get(p.body, k)) {
        var r := Get(p.body, k);
        if Accepts(tables, p.body, p.scope) && !r.Null? {
          assert Field(k, r) in p.body.fields && PermittedKey(k);
        }
      }
    }
  }

  lemma CteQueryAccepted(tables: set<string>, body: Json, scope: set<string>, k: nat)
    requires Accepts(tables, body, scope) && k < |CteEntries(body)|
    ensures Accepts(tables, CteQuery(CteEntries(body)[k]), scope)
  {
    var clause := Get(body, "withClause");
    AcceptsGet(tables, body, "withClause", scope);
    AcceptsGet(tables, clause, "ctes", scope);
    var entry := CteEntries(body)[k];
    assert entry in Get(clause, "ctes").items;
    AcceptsGet(tables, entry, "CommonTableExpr", scope);
    AcceptsGet(tables, Get(entry, "CommonTableExpr"), "ctequery", scope);
  }

  lemma SelectCte(tables: set<string>, body: Json, scope: set<string>, k: nat)
    requires body.Obj? && AcceptsSelect(tables, body, scope) && k < |CteEntries(body)|
    ensures Accepts(tables, CteQuery(CteEntries(body)[k]), scope + Siblings(body, k))
  {
    assert AcceptsCte(tables, body, scope, k);
  }

  lemma WalkedCte(tables: set<string>, body: Json, scope: set<string>, k: nat)
    requires Walked(tables, Select(body, scope)) && k < |CteEntries(body)|
    ensures Accepts(tables, CteQuery(CteEntries(body)[k]), scope + Siblings(body, k))
  {
    if Accepts(tables, body, scope) {
      CteQueryAccepted(tables, body, scope, k);
      MoreScopeAccepts(tables, CteQuery(CteEntries(body)[k]), scope, scope + Siblings(body, k));
    } else {
      SelectCte(tables, body, scope, k);
    }
  }

  lemma WalkedStep(tables: set<string>, p: Position, h: Hop)
    requires Walked(tables, p) && Go(p, h).Some?
    ensures Walked(tables, Go(p, h).value)
  {
    match p
    case Node(node, scope) =>
      if h.Item? {
        assert node.items[h.i] in node.items;
      } else {
        assert node.fields[h.i] in node.fields && AcceptsField(tables, node.fields[h.i], scope);
      }
    case Select(body, scope) =>
      if h.Cte? {
        WalkedCte(tables, body, scope, h.k);
      } else {
        var f := body.fields[h.i];
        assert f in body.fields;
        if Accepts(tables, body, scope) {
          assert AcceptsField(tables, f, scope);
          MoreScopeAccepts(tables, f.val, scope, scope + CteNames(CteEntries(body)));
        }
      }
  }

  /** What the walk accepts is well scoped at every position, however deep. */
  lemma {:induction false} AcceptedIsWellScoped(tables: set<string>, p: Position, path: seq<Hop>)
    requires Walked(tables, p)
    ensures WellScopedAt(tables, p, path)
    decreases |path|
  {
    if path == [] {
      WalkedIsWellScoped(tables, p);
    } else if Go(p, path[0]).Some? {
      WalkedStep(tables, p, path[0]);
      AcceptedIsWellScoped(tables, Go(p, path[0]).value, path[1..]);
    }
  }

  // ---------------------------------------------------------------- names a query must not see

  /** No SELECT on the way from `p` defines `x` in a WITH clause of its own. */
  ghost predicate NoneDefines(p: Position, path: seq<Hop>, x: string)
    decreases |path|
  {
    && (p.Select? ==> !BodySees(p.body, x))
    && (path != [] && Go(p, path[0]).Some? ==> NoneDefines(Go(p, path[0]).value, path[1..], x))
  }

  lemma {:induction false} ScopeStays(p: Position, path: seq<Hop>, x: string)
    requires NoneDefines(p, path, x) && x !in p.scope && Locate(p, path).Some?
    ensures x !in Locate(p, path).value.scope
    decreases |path|
  {
    if path != [] {
      ScopeStays(Go(p, path[0]).value, path[1..], x);
    }
  }

  /** At this position a relation is named `x`, without a schema. */
  ghost predicate Names(p: Position, f: Field, x: string) {
    && p.Node? && p.node.Obj? && f in p.node.fields && f.key == "RangeVar" && f.val.Obj?
    && Get(f.val, "schemaname").Null? && Get(f.val, "relname") == Str(x)
  }

  /**
    A query of a plain WITH clause that names its own entry, or one that comes later, is refused,
    unless the name is allowed or an enclosing scope or an earlier entry has it.
   */
  lemma LaterSiblingIsRefused(tables: set<string>, stmt: Json, outer: set<string>, k: nat, path: seq<Hop>, f: Field, x: string)
    requires stmt.Obj? && k < |CteEntries(stmt)| && !Recursive(stmt) && x !in outer && x !in tables
    requires forall j :: 0 <= j < k ==> !Defines(CteEntries(stmt)[j], x)
    requires var q := Node(CteQuery(CteEntries(stmt)[k]), QueryScope(stmt, k, outer));
      NoneDefines(q, path, x) && Locate(q, path).Some? && Names(Locate(q, path).value, f, x)
    ensures !AcceptsSelect(tables, stmt, outer)
  {
    var p, q := Select(stmt, outer), Node(CteQuery(CteEntries(stmt)[k]), QueryScope(stmt, k, outer));
    ScopeStays(q, path, x);
    if AcceptsSelect(tables, stmt, outer) {
      WalkedStep(tables, p, Hop.Cte(k));
      AcceptedIsWellScoped(tables, q, path);
    }
  }

  /** `WITH x AS (SELECT column FROM x) SELECT column FROM x` */
  function SelfNaming(x: string, column: string): Json {
    Obj([Field("withClause", Obj([Field("ctes", Arr([SelfEntry(x, column)]))])), Field("fromClause", From(x))])
  }

  function From(x: string): Json {
    Arr([Obj([Field("RangeVar", Obj([Field("relname", Str(x))]))])])
  }

  function SelfEntry(x: string, column: string): Json {
    Obj([Field("CommonTableExpr", Obj([Field("ctename", Str(x)), Field("ctequery", SelfQuery(x, column))]))])
  }

  function SelfQuery(x: string, column: string): Json {
    Obj([Field("SelectStmt", SelfSelect(x, column))])
  }

  function SelfSelect(x: string, column: string): Json {
    Obj([Field("targetList", Str(column)), Field("fromClause", From(x))])
  }

  lemma GetOnly(f: Field, key: string)
    ensures Get(Obj([f]), key) == if f.key == key then f.val else Null
  {
  }

  lemma GetOfTwo(f: Field, h: Field, key: string)
    requires f.key != key
    ensures Get(Obj([f, h]), key) == if h.key == key then h.val else Null
  {
    var node := Obj([f, h]);
    assert node.fields[1..] == [h] && node.fields[1] in node.fields && [h][1..] == [];
    assert GetField(node, [h], key) == if h.key == key then h.val else GetField(node, [], key);
  }

  lemma SelfNamingParts(x: string, column: string)
    ensures CteEntries(SelfNaming(x, column)) == [SelfEntry(x, column)] && !Recursive(SelfNaming(x, column))
    ensures CteQuery(SelfEntry(x, column)) == SelfQuery(x, column)
  {
    var stmt, ctes := SelfNaming(x, column), Field("ctes", Arr([SelfEntry(x, column)]));
    assert Get(stmt, "withClause") == Obj([ctes]);
    GetOnly(ctes, "ctes");
    GetOnly(ctes, "recursive");
    var name, query := Field("ctename", Str(x)), Field("ctequery", SelfQuery(x, column));
    GetOnly(Field("CommonTableExpr", Obj([name, query])), "CommonTableExpr");
    GetOfTwo(name, query, "ctequery");
  }

  lemma SelfSelectIsPlain(x: string, column: string)
    ensures CteEntries(SelfSelect(x, column)) == []
  {
    GetOfTwo(Field("targetList", Str(column)), Field("fromClause", From(x)), "withClause");
  }

  /** The way from the inner query to its FROM clause. */
  lemma SelfPath(x: string, column: string, q: Position)
    requires q.Node? && q.node == SelfQuery(x, column)
    ensures NoneDefines(q, [Into(0), Into(1), Item(0)], x)
    ensures var p := Locate(q, [Into(0), Into(1), Item(0)]);
      p.Some? && p.value.Node? && p.value.node == From(x).items[0]
  {
    var inner := Select(SelfSelect(x, column), q.scope);
    assert Go(q, Into(0)) == Some(inner) && [Into(0), Into(1), Item(0)][1..] == [Into(1), Item(0)];
    SelfSelectIsPlain(x, column);
    SelfTail(x, column, inner);
  }

  lemma SelfTail(x: string, column: string, inner: Position)
    requires inner.Select? && inner.body == SelfSelect(x, column) && CteEntries(inner.body) == []
    ensures NoneDefines(inner, [Into(1), Item(0)], x)
    ensures var p := Locate(inner, [Into(1), Item(0)]);
      p.Some? && p.value.Node? && p.value.node == From(x).items[0]
  {
    var from := Node(From(x), BodyScope(inner.body, inner.scope));
    assert Go(inner, Into(1)) == Some(from) && [Into(1), Item(0)][1..] == [Item(0)];
    var last := Node(From(x).items[0], from.scope);
    assert Go(from, Item(0)) == Some(last) && [Item(0)][1..] == [];
    assert Locate(last, []) == Some(last) && NoneDefines(last, [], x);
    assert Locate(from, [Item(0)]) == Some(last) && NoneDefines(from, [Item(0)], x);
  }

  /** An instance: the inner `x` is the base table, and it is refused unless it is allowed. */
  lemma SelfNamingIsRefused(tables: set<string>, x: string, column: string)
    requires x != "" && x !in tables
    ensures !AcceptsSelect(tables, SelfNaming(x, column), {})
  {
    var stmt, path := SelfNaming(x, column), [Into(0), Into(1), Item(0)];
    SelfNamingParts(x, column);
    var q := Node(SelfQuery(x, column), QueryScope(stmt, 0, {}));
    SelfPath(x, column, q);
    var relation := Field("RangeVar", Obj([Field("relname", Str(x))]));
    GetOnly(Field("relname", Str(x)), "relname");
    GetOnly(Field("relname", Str(x)), "schemaname");
    LaterSiblingIsRefused(tables, stmt, {}, 0, path, relation, x);
  }
}
