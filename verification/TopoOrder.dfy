/**
  The order in which a preview database's tables are loaded: foreign keys first, as far as the
  foreign keys allow one.
 */
module TopoOrder {
  import opened Sets
  import opened Sorting

  datatype ForeignKey = ForeignKey(column: string, target: string)

  /** The reflected schema: each table's foreign keys. */
  type Schema = map<string, seq<ForeignKey>>

  const BACKEDGES: set<(string, string)> := {("tasks", "current_version_id")}

  predicate LexLe(a: string, b: string) {
    a == "" || (b != "" && (a[0] < b[0] || (a[0] == b[0] && LexLe(a[1..], b[1..]))))
  }

  lemma {:induction false} LexLeTotal(a: string, b: string)
    ensures LexLe(a, b) || LexLe(b, a)
    ensures LexLe(a, b) && LexLe(b, a) ==> a == b
  {
    if a != "" && b != "" && a[0] == b[0] {
      LexLeTotal(a[1..], b[1..]);
      assert a == [a[0]] + a[1..] && b == [b[0]] + b[1..];
    }
  }

  lemma {:induction false} LexLeTransitive(a: string, b: string, c: string)
    requires LexLe(a, b) && LexLe(b, c)
    ensures LexLe(a, c)
  {
    if a != "" && a[0] == b[0] == c[0] {
      LexLeTransitive(a[1..], b[1..], c[1..]);
    }
  }

  lemma LexLeIsAnOrder()
    ensures TotalOrder(LexLe)
  {
    forall a, b ensures LexLe(a, b) || LexLe(b, a) {
      LexLeTotal(a, b);
    }
    forall a, b, c | LexLe(a, b) && LexLe(b, c) ensures LexLe(a, c) {
      LexLeTransitive(a, b, c);
    }
  }

  // ---------------------------------------------------------------- dependencies

  /** Table `x` must be loaded after `y`: a foreign key that is neither a back edge nor a self reference. */
  predicate DependsOn(md: Schema, x: string, y: string) {
    x in md && y != x && exists i :: 0 <= i < |md[x]| && md[x][i].target == y && (x, md[x][i].column) !in BACKEDGES
  }

  method Dependencies(md: Schema, x: string) returns (deps: set<string>)
    requires x in md
    ensures forall y :: y in deps <==> DependsOn(md, x, y)
  {
    deps := {};
    for i := 0 to |md[x]|
      invariant forall y :: y in deps <==>
        y != x && exists j :: 0 <= j < i && md[x][j].target == y && (x, md[x][j].column) !in BACKEDGES
    {
      var fk := md[x][i];
      if (x, fk.column) !in BACKEDGES && fk.target != x {
        deps := deps + {fk.target};
      }
    }
  }

  /** The tables whose chains of dependencies are all shorter than `k`. */
  ghost function Settled(md: Schema, k: nat): set<string> {
    if k == 0 then {} else NextRound(md, Settled(md, k - 1))
  }

  ghost function NextRound(md: Schema, done: set<string>): set<string> {
    set x | x in md && DepsWithin(md, x, done)
  }

  ghost predicate DepsWithin(md: Schema, x: string, done: set<string>) {
    forall y :: DependsOn(md, x, y) && y in md ==> y in done
  }

  lemma {:induction false} SettledGrows(md: Schema, j: nat, k: nat)
    requires j <= k
    ensures Settled(md, j) <= Settled(md, k) <= md.Keys
  {
    if j > 0 {
      SettledGrows(md, j - 1, k - 1);
    } else if k > 0 {
      SettledGrows(md, 0, k - 1);
    }
  }

  /** Some round settles it. */
  ghost predicate Orderable(md: Schema, x: string) {
    x in Settled(md, |md|)
  }

  /** The first round that settles `x`. */
  ghost function Height(md: Schema, x: string, k: nat): (h: nat)
    requires x in Settled(md, k)
    ensures 0 < h <= k && x in Settled(md, h) && x !in Settled(md, h - 1)
  {
    if x in Settled(md, k - 1) then Height(md, x, k - 1) else k
  }

  lemma HeightIsLeast(md: Schema, x: string, k: nat, j: nat)
    requires x in Settled(md, k) && x in Settled(md, j)
    ensures Height(md, x, k) <= j && Height(md, x, k) == Height(md, x, j)
  {
    var h, i := Height(md, x, k), Height(md, x, j);
    if h < i {
      SettledGrows(md, h, i - 1);
    }
  }

  // ---------------------------------------------------------------- cycles

  /** A chain of tables, each depending on the next. */
  ghost predicate Walk(md: Schema, p: seq<string>) {
    && p != [] && (forall i :: 0 <= i < |p| ==> p[i] in md)
    && forall i :: 0 <= i < |p| - 1 ==> DependsOn(md, p[i], p[i + 1])
  }

  ghost predicate Repeats(p: seq<string>) {
    exists i, j :: 0 <= i < j < |p| && p[i] == p[j]
  }

  /** Following foreign keys from `x` one can come to the same table twice. */
  ghost predicate ReachesCycle(md: Schema, x: string) {
    exists p :: Walk(md, p) && p[0] == x && Repeats(p)
  }

  /** What is not settled after k rounds starts a walk of k + 1 tables. */
  lemma {:induction false} UnsettledWalk(md: Schema, x: string, k: nat) returns (p: seq<string>)
    requires x in md && x !in Settled(md, k)
    ensures Walk(md, p) && p[0] == x && |p| == k + 1
    decreases k
  {
    if k == 0 {
      p := [x];
    } else {
      var y :| DependsOn(md, x, y) && y in md && y !in Settled(md, k - 1);
      var q := UnsettledWalk(md, y, k - 1);
      p := [x] + q;
    }
  }

  lemma {:induction false} Pigeonhole(p: seq<string>, s: set<string>)
    requires |p| > |s| && forall i :: 0 <= i < |p| ==> p[i] in s
    ensures Repeats(p)
  {
    var last := |p| - 1;
    if last >= 0 && p[last] in p[..last] {
      var i :| 0 <= i < last && p[..last][i] == p[last];
      assert p[i] == p[last];
    } else {
      forall i | 0 <= i < last ensures p[..last][i] in s - {p[last]} {
        assert p[..last][i] == p[i];
      }
      Pigeonhole(p[..last], s - {p[last]});
      var i, j :| 0 <= i < j < last && p[..last][i] == p[..last][j];
      assert p[i] == p[j];
    }
  }

  /** What a round settles depends only on what earlier rounds settled. */
  lemma DepsSettled(md: Schema, x: string, y: string, h: nat)
    requires h > 0 && x in Settled(md, h) && DependsOn(md, x, y) && y in md
    ensures y in Settled(md, h - 1)
  {
    assert Settled(md, h) == NextRound(md, Settled(md, h - 1));
    assert DepsWithin(md, x, Settled(md, h - 1));
  }

  lemma HeightFalls(md: Schema, x: string, y: string, n: nat)
    requires x in Settled(md, n) && DependsOn(md, x, y) && y in md
    ensures y in Settled(md, n) && Height(md, y, n) < Height(md, x, n)
  {
    var h := Height(md, x, n);
    DepsSettled(md, x, y, h);
    SettledGrows(md, h - 1, n);
    HeightIsLeast(md, y, n, h - 1);
  }

  lemma {:induction false} WalkStaysSettled(md: Schema, p: seq<string>, n: nat, j: nat)
    requires Walk(md, p) && p[0] in Settled(md, n) && j < |p|
    ensures p[j] in Settled(md, n)
    decreases j
  {
    if j > 0 {
      WalkStaysSettled(md, p, n, j - 1);
      assert DependsOn(md, p[j - 1], p[j - 1 + 1]);
      HeightFalls(md, p[j - 1], p[j], n);
    }
  }

  lemma {:induction false} Falling(hs: seq<int>, i: nat, j: nat)
    requires i < j < |hs| && forall a :: 0 <= a < |hs| - 1 ==> hs[a + 1] < hs[a]
    ensures hs[j] < hs[i]
    decreases j
  {
    assert hs[j - 1 + 1] < hs[j - 1];
    if i < j - 1 {
      Falling(hs, i, j - 1);
    }
  }

  /** A walk from a settled table never comes back: the heights fall along it. */
  lemma NoWayBack(md: Schema, p: seq<string>, n: nat)
    requires Walk(md, p) && p[0] in Settled(md, n)
    ensures !Repeats(p)
  {
    forall a | 0 <= a < |p| ensures p[a] in Settled(md, n) {
      WalkStaysSettled(md, p, n, a);
    }
    var hs: seq<int> := seq(|p|, a requires 0 <= a < |p| => Height(md, p[a], n));
    forall a | 0 <= a < |hs| - 1 ensures hs[a + 1] < hs[a] {
      HeightFalls(md, p[a], p[a + 1], n);
    }
    forall i, j | 0 <= i < j < |p| ensures p[i] != p[j] {
      Falling(hs, i, j);
    }
  }

  /** A table can be ordered exactly when no cycle is reachable from it. */
  lemma OrderableExactlyWhen(md: Schema, x: string)
    requires x in md
    ensures Orderable(md, x) <==> !ReachesCycle(md, x)
  {
    if !Orderable(md, x) {
      var p := UnsettledWalk(md, x, |md|);
      assert |md.Keys| == |md|;
      Pigeonhole(p, md.Keys);
    } else if ReachesCycle(md, x) {
      var p :| Walk(md, p) && p[0] == x && Repeats(p);
      NoWayBack(md, p, |md|);
    }
  }

  // ---------------------------------------------------------------- the order

  /** The round that orders a table; those no round orders rank after all others. */
  ghost function Rank(md: Schema, x: string): nat {
    if Orderable(md, x) then Height(md, x, |md|) else |md| + 1
  }

  /** Round by round, and by name within a round; what no round settles comes last, by name. */
  ghost predicate Precedes(md: Schema, x: string, y: string) {
    Rank(md, x) < Rank(md, y) || (Rank(md, x) == Rank(md, y) && LexLe(x, y))
  }

  ghost predicate InOrder(md: Schema, ordered: seq<string>) {
    forall a, b :: 0 <= a < b < |ordered| ==> ordered[a] != ordered[b] && Precedes(md, ordered[a], ordered[b])
  }

  ghost predicate IsReady(md: Schema, remaining: set<string>, x: string) {
    x in remaining && forall y :: DependsOn(md, x, y) ==> y !in remaining
  }

  /** The tables left whose dependencies are all ordered, sorted by name. */
  method Ready(md: Schema, remaining: set<string>) returns (ready: seq<string>)
    requires remaining <= md.Keys
    ensures Ascending(ready, LexLe) && Distinct(ready)
    ensures forall x :: x in ready <==> IsReady(md, remaining, x)
  {
    var names := AsList(remaining);
    ready := [];
    for i := 0 to |names|
      invariant Distinct(ready)
      invariant forall x :: x in ready <==> x in names[..i] && IsReady(md, remaining, x)
    {
      var x := names[i];
      assert x in names && x !in names[..i];
      var deps := Dependencies(md, x);
      if deps * remaining == {} {
        forall y | DependsOn(md, x, y) ensures y !in remaining {
          assert y in deps && y !in deps * remaining;
        }
        DistinctAppend(ready, x);
        ready := ready + [x];
      } else {
        var y :| y in deps * remaining;
        assert DependsOn(md, x, y) && !IsReady(md, remaining, x);
      }
      assert names[..i + 1] == names[..i] + [x];
      assert forall z :: z in names[..i + 1] <==> z in names[..i] || z == x;
    }
    assert names[..|names|] == names;
    LexLeIsAnOrder();
    ready := Sorted(ready, LexLe);
  }

  method SortedNames(names: set<string>) returns (r: seq<string>)
    ensures Ascending(r, LexLe) && Distinct(r) && forall x :: x in r <==> x in names
  {
    var all := AsList(names);
    LexLeIsAnOrder();
    r := Sorted(all, LexLe);
  }

  lemma Joined(md: Schema, ordered: seq<string>, ready: seq<string>)
    requires InOrder(md, ordered) && InOrder(md, ready)
    requires forall x, y :: x in ordered && y in ready ==> x != y && Precedes(md, x, y)
    ensures InOrder(md, ordered + ready)
  {
    var all := ordered + ready;
    forall a, b | 0 <= a < b < |all| ensures all[a] != all[b] && Precedes(md, all[a], all[b]) {
      if a < |ordered| <= b {
        assert all[a] in ordered && all[b] in ready;
      }
    }
  }

  /** The tables ordered after `k` rounds are those that k rounds settle. */
  ghost predicate Progress(md: Schema, ordered: seq<string>, remaining: set<string>, k: nat) {
    && InOrder(md, ordered) && remaining == md.Keys - Settled(md, k)
    && (forall x :: x in ordered <==> x in Settled(md, k))
    && k <= |ordered| && |ordered| + |remaining| == |md|
  }

  lemma ReadyIsNextRound(md: Schema, k: nat, remaining: set<string>, x: string)
    requires remaining == md.Keys - Settled(md, k)
    ensures IsReady(md, remaining, x) <==> x in Settled(md, k + 1) && x !in Settled(md, k)
  {
    if x in md {
      if IsReady(md, remaining, x) {
        assert DepsWithin(md, x, Settled(md, k));
      } else if x in remaining {
        var y :| DependsOn(md, x, y) && y in remaining;
        assert !DepsWithin(md, x, Settled(md, k));
      }
    }
  }

  lemma RankOfRound(md: Schema, x: string, k: nat)
    requires x in Settled(md, k) && k <= |md|
    ensures Rank(md, x) <= k
  {
    SettledGrows(md, k, |md|);
    HeightIsLeast(md, x, |md|, k);
  }

  lemma RankOfFirst(md: Schema, x: string, k: nat)
    requires x in Settled(md, k + 1) && x !in Settled(md, k) && k < |md|
    ensures Rank(md, x) == k + 1
  {
    RankOfRound(md, x, k + 1);
    if Rank(md, x) <= k {
      SettledGrows(md, Rank(md, x), k);
    }
  }

  lemma {:induction false} FixpointStays(md: Schema, k: nat, n: nat)
    requires Settled(md, k + 1) == Settled(md, k) && k <= n
    ensures Settled(md, n) == Settled(md, k)
  {
    if k < n {
      FixpointStays(md, k, n - 1);
      assert Settled(md, n) == NextRound(md, Settled(md, n - 1));
      assert Settled(md, k + 1) == NextRound(md, Settled(md, k));
    }
  }

  ghost predicate AllRanked(md: Schema, xs: seq<string>, rank: nat) {
    forall x :: x in xs ==> Rank(md, x) == rank
  }

  ghost predicate RankedBelow(md: Schema, xs: seq<string>, rank: nat) {
    forall x :: x in xs ==> Rank(md, x) < rank
  }

  lemma BatchJoins(md: Schema, ordered: seq<string>, ready: seq<string>, rank: nat)
    requires InOrder(md, ordered) && RankedBelow(md, ordered, rank)
    requires Ascending(ready, LexLe) && Distinct(ready) && AllRanked(md, ready, rank)
    ensures InOrder(md, ordered + ready)
  {
    forall a, b | 0 <= a < b < |ready| ensures ready[a] != ready[b] && Precedes(md, ready[a], ready[b]) {
      assert ready[a] in ready && ready[b] in ready && LexLe(ready[a], ready[b]);
    }
    Joined(md, ordered, ready);
  }

  lemma OrderedRank(md: Schema, ordered: seq<string>, remaining: set<string>, k: nat)
    requires Progress(md, ordered, remaining, k) && k < |md|
    ensures RankedBelow(md, ordered, k + 1)
  {
    forall x | x in ordered ensures Rank(md, x) < k + 1 {
      RankOfRound(md, x, k);
    }
  }

  lemma ReadyRank(md: Schema, remaining: set<string>, k: nat, ready: seq<string>)
    requires remaining == md.Keys - Settled(md, k) && k < |md|
    requires forall x :: x in ready <==> IsReady(md, remaining, x)
    ensures AllRanked(md, ready, k + 1)
  {
    forall x | x in ready ensures Rank(md, x) == k + 1 {
      RankOfReady(md, remaining, k, x);
    }
  }

  lemma RankOfReady(md: Schema, remaining: set<string>, k: nat, x: string)
    requires remaining == md.Keys - Settled(md, k) && k < |md| && IsReady(md, remaining, x)
    ensures Rank(md, x) == k + 1
  {
    ReadyIsNextRound(md, k, remaining, x);
    RankOfFirst(md, x, k);
  }

  lemma SizesAddUp(ordered: seq<string>, remaining: set<string>, ready: seq<string>)
    requires Distinct(ready) && Elements(ready) <= remaining
    ensures |ordered + ready| + |remaining - Elements(ready)| == |ordered| + |remaining|
  {
    SizeOfDistinct(ready);
  }

  /** A round's batch may follow what is already ordered. */
  lemma NextBatch(md: Schema, ordered: seq<string>, remaining: set<string>, k: nat, ready: seq<string>)
    requires Progress(md, ordered, remaining, k) && remaining != {} && ready != []
    requires Ascending(ready, LexLe) && Distinct(ready)
    requires forall x :: x in ready <==> IsReady(md, remaining, x)
    ensures Progress(md, ordered + ready, remaining - Elements(ready), k + 1)
  {
    assert |remaining| > 0;
    assert InOrder(md, ordered + ready) by {
      OrderedRank(md, ordered, remaining, k);
      ReadyRank(md, remaining, k, ready);
      BatchJoins(md, ordered, ready, k + 1);
    }
    BatchRemoved(md, remaining, k, ready);
    assert Elements(ready) <= remaining;
    SizesAddUp(ordered, remaining, ready);
    CountUp(md, ordered, remaining, k, ready, remaining - Elements(ready));
  }

  lemma CountUp(md: Schema, ordered: seq<string>, remaining: set<string>, k: nat, ready: seq<string>, left: set<string>)
    requires InOrder(md, ordered + ready) && left == md.Keys - Settled(md, k + 1)
    requires forall x :: x in ordered <==> x in Settled(md, k)
    requires forall x :: x in Settled(md, k + 1) <==> x in ready || x in Settled(md, k)
    requires k <= |ordered| && ready != [] && |ordered + ready| + |left| == |md|
    ensures Progress(md, ordered + ready, left, k + 1)
  {
    forall x ensures x in ordered + ready <==> x in Settled(md, k + 1) {
      assert x in ordered + ready <==> x in ordered || x in ready;
    }
  }

  lemma BatchRemoved(md: Schema, remaining: set<string>, k: nat, ready: seq<string>)
    requires remaining == md.Keys - Settled(md, k)
    requires forall x :: x in ready <==> IsReady(md, remaining, x)
    ensures remaining - Elements(ready) == md.Keys - Settled(md, k + 1)
    ensures forall x :: x in Settled(md, k + 1) <==> x in ready || x in Settled(md, k)
  {
    SettledGrows(md, k, k + 1);
    forall x ensures x in ready <==> x in Settled(md, k + 1) && x !in Settled(md, k) {
      ReadyIsNextRound(md, k, remaining, x);
    }
    SettledGrows(md, k + 1, k + 1);
    Removed(md.Keys, Settled(md, k), Settled(md, k + 1), ready);
  }

  lemma Removed(all: set<string>, done: set<string>, next: set<string>, ready: seq<string>)
    requires done <= next <= all && forall x :: x in ready <==> x in next && x !in done
    ensures all - done - Elements(ready) == all - next
    ensures forall x :: x in next <==> x in ready || x in done
  {
  }

  lemma {:induction false} SizeOfDistinct(xs: seq<string>)
    requires Distinct(xs)
    ensures |Elements(xs)| == |xs|
  {
    if xs != [] {
      var n := |xs| - 1;
      SizeOfDistinct(xs[..n]);
      assert Elements(xs) == Elements(xs[..n]) + {xs[n]};
    }
  }

  /** When no round can go on, what is left reaches a cycle; it follows everything else. */
  lemma LastBatch(md: Schema, ordered: seq<string>, remaining: set<string>, k: nat, ready: seq<string>)
    requires Progress(md, ordered, remaining, k) && remaining != {}
    requires forall x :: !IsReady(md, remaining, x)
    requires Ascending(ready, LexLe) && Distinct(ready) && forall x :: x in ready <==> x in remaining
    ensures Complete(md, ordered + ready)
  {
    SettledGrows(md, k, k);
    Stuck(md, remaining, k);
    assert |remaining| > 0;
    FixpointStays(md, k, |md|);
    OrderedRank(md, ordered, remaining, k);
    assert AllRanked(md, ready, |md| + 1);
    BatchJoins(md, ordered, ready, |md| + 1);
  }

  lemma Stuck(md: Schema, remaining: set<string>, k: nat)
    requires remaining == md.Keys - Settled(md, k) && forall x :: !IsReady(md, remaining, x)
    ensures Settled(md, k + 1) == Settled(md, k)
  {
    SettledGrows(md, k, k + 1);
    forall x | x in Settled(md, k + 1) ensures x in Settled(md, k) {
      ReadyIsNextRound(md, k, remaining, x);
    }
  }

  /**
    The order: every table once, round by round; tables from which a cycle is reachable come last.
    It ends on every schema, cyclic or not.
   */
  method TopoOrder(md: Schema) returns (ordered: seq<string>)
    ensures Complete(md, ordered)
  {
    ordered := [];
    var remaining := md.Keys;
    ghost var k: nat := 0;
    while remaining != {}
      invariant Underway(md, ordered, remaining, k)
      decreases |remaining|
    {
      var ready := Ready(md, remaining);
      if ready == [] {
        assert forall x :: !IsReady(md, remaining, x);
        ready := SortedNames(remaining);
        LastBatch(md, ordered, remaining, k, ready);
        ordered, remaining := ordered + ready, {};
      } else {
        NextBatch(md, ordered, remaining, k, ready);
        assert ready[0] in ready;
        ordered, remaining, k := ordered + ready, remaining - Elements(ready), k + 1;
        AllDone(md, ordered, remaining, k);
      }
    }
  }

  ghost predicate Complete(md: Schema, ordered: seq<string>) {
    InOrder(md, ordered) && forall x :: x in ordered <==> x in md
  }

  ghost predicate Underway(md: Schema, ordered: seq<string>, remaining: set<string>, k: nat) {
    if remaining == {} then Complete(md, ordered) else Progress(md, ordered, remaining, k)
  }

  lemma AllDone(md: Schema, ordered: seq<string>, remaining: set<string>, k: nat)
    requires Progress(md, ordered, remaining, k)
    ensures Underway(md, ordered, remaining, k)
  {
    SettledGrows(md, k, k);
  }

  /** A table from which no cycle is reachable comes after every table it depends on. */
  lemma DependenciesFirst(md: Schema, ordered: seq<string>, a: nat, b: nat)
    requires Complete(md, ordered) && a < |ordered| && b < |ordered|
    ensures DependsOn(md, ordered[a], ordered[b]) && !ReachesCycle(md, ordered[a]) ==> b < a
  {
    assert ordered[a] in ordered && ordered[b] in ordered;
    if DependsOn(md, ordered[a], ordered[b]) && !ReachesCycle(md, ordered[a]) {
      OrderableExactlyWhen(md, ordered[a]);
      HeightFalls(md, ordered[a], ordered[b], |md|);
      assert !Precedes(md, ordered[a], ordered[b]);
    }
  }

  /** No table comes before one it depends on. */
  ghost predicate RespectsAll(md: Schema, ordered: seq<string>) {
    forall a, b :: 0 <= a < b < |ordered| ==> !DependsOn(md, ordered[a], ordered[b])
  }

  ghost function Position(ordered: seq<string>, x: string): (i: nat)
    requires x in ordered
    ensures i < |ordered| && ordered[i] == x
  {
    var i :| 0 <= i < |ordered| && ordered[i] == x;
    i
  }

  /** Along a walk the positions in such an order fall, so it never comes back. */
  lemma RespectedWalk(md: Schema, ordered: seq<string>, p: seq<string>)
    requires Complete(md, ordered) && RespectsAll(md, ordered) && Walk(md, p)
    ensures !Repeats(p)
  {
    var at: seq<int> := seq(|p|, i requires 0 <= i < |p| => Position(ordered, p[i]));
    forall i | 0 <= i < |at| - 1 ensures at[i + 1] < at[i] {
      assert DependsOn(md, p[i], p[i + 1]);
      assert !(at[i] < at[i + 1]);
    }
    forall i, j | 0 <= i < j < |p| ensures p[i] != p[j] {
      Falling(at, i, j);
    }
  }

  /** The order respects every dependency if and only if the schema has no cycle. */
  lemma OrderRespectsAllExactlyWhen(md: Schema, ordered: seq<string>)
    requires Complete(md, ordered)
    ensures RespectsAll(md, ordered) <==> forall x :: x in md ==> !ReachesCycle(md, x)
  {
    if forall x :: x in md ==> !ReachesCycle(md, x) {
      forall a, b | 0 <= a < b < |ordered| ensures !DependsOn(md, ordered[a], ordered[b]) {
        assert ordered[a] in ordered;
        DependenciesFirst(md, ordered, a, b);
      }
    }
    if RespectsAll(md, ordered) {
      forall x | x in md ensures !ReachesCycle(md, x) {
        if p :| Walk(md, p) && p[0] == x && Repeats(p) {
          RespectedWalk(md, ordered, p);
        }
      }
    }
  }

  // ---------------------------------------------------------------- the load loop

  /** A sampled row; `refs` are its foreign keys that are not null. */
  datatype Row = Row(id: nat, refs: map<string, nat>)

  type Sample = map<string, seq<Row>>

  function RowsOf(sample: Sample, name: string): seq<Row> {
    if name in sample then sample[name] else []
  }

  /** Row `id` of `target` is one that `row` of `name` must find loaded. */
  ghost predicate Needs(md: Schema, name: string, row: Row, target: string, id: nat) {
    && name in md && target != name
    && exists i :: 0 <= i < |md[name]| && md[name][i].target == target && (name, md[name][i].column) !in BACKEDGES
                   && md[name][i].column in row.refs && row.refs[md[name][i].column] == id
  }

  ghost predicate Has(sample: Sample, name: string, id: nat) {
    exists k :: 0 <= k < |RowsOf(sample, name)| && RowsOf(sample, name)[k].id == id
  }

  /** The sample brings along every row its rows refer to. */
  ghost predicate Closed(md: Schema, sample: Sample) {
    forall name, k, target, id ::
      0 <= k < |RowsOf(sample, name)| && Needs(md, name, RowsOf(sample, name)[k], target, id)
      ==> target in md && Has(sample, target, id)
  }

  /** One row loaded, in the table it belongs to. */
  datatype Load = Load(name: string, row: Row)

  function Loads(name: string, rows: seq<Row>): (r: seq<Load>)
    ensures |r| == |rows| && forall k :: 0 <= k < |r| ==> r[k] == Load(name, rows[k])
  {
    seq(|rows|, k requires 0 <= k < |rows| => Load(name, rows[k]))
  }

  ghost predicate Loaded(log: seq<Load>, name: string, id: nat) {
    exists b :: 0 <= b < |log| && log[b].name == name && log[b].row.id == id
  }

  /** Each row of a table from which no cycle is reachable found every row it refers to. */
  ghost predicate NothingDangled(md: Schema, log: seq<Load>) {
    forall a, target, id ::
      0 <= a < |log| && !ReachesCycle(md, log[a].name) && Needs(md, log[a].name, log[a].row, target, id)
      ==> Loaded(log[..a], target, id)
  }

  /** The tables before position `n` of the order are loaded, and nothing else is. */
  ghost predicate LoadedTo(sample: Sample, ordered: seq<string>, n: nat, log: seq<Load>) {
    && n <= |ordered|
    && forall i, k :: 0 <= i < n && 0 <= k < |RowsOf(sample, ordered[i])| ==>
         Loaded(log, ordered[i], RowsOf(sample, ordered[i])[k].id)
  }

  lemma LoadedStays(log: seq<Load>, more: seq<Load>, name: string, id: nat)
    requires Loaded(log, name, id)
    ensures Loaded(log + more, name, id)
  {
    var b :| 0 <= b < |log| && log[b].name == name && log[b].row.id == id;
    assert (log + more)[b] == log[b];
  }

  lemma RowsLoaded(log: seq<Load>, name: string, rows: seq<Row>, k: nat)
    requires k < |rows|
    ensures Loaded(log + Loads(name, rows), name, rows[k].id)
  {
    assert (log + Loads(name, rows))[|log| + k] == Load(name, rows[k]);
  }

  lemma FoundEarlier(md: Schema, sample: Sample, ordered: seq<string>, n: nat, log: seq<Load>, row: Row, target: string, id: nat)
    requires Complete(md, ordered) && Closed(md, sample) && LoadedTo(sample, ordered, n, log) && n < |ordered|
    requires row in RowsOf(sample, ordered[n]) && !ReachesCycle(md, ordered[n]) && Needs(md, ordered[n], row, target, id)
    ensures Loaded(log, target, id)
  {
    var k :| 0 <= k < |RowsOf(sample, ordered[n])| && RowsOf(sample, ordered[n])[k] == row;
    assert Has(sample, target, id);
    assert target in ordered && ordered[n] in ordered;
    var b :| 0 <= b < |ordered| && ordered[b] == target;
    assert DependsOn(md, ordered[n], target);
    DependenciesFirst(md, ordered, n, b);
    var j :| 0 <= j < |RowsOf(sample, target)| && RowsOf(sample, target)[j].id == id;
  }

  lemma NextTable(md: Schema, sample: Sample, ordered: seq<string>, n: nat, log: seq<Load>)
    requires Complete(md, ordered) && Closed(md, sample) && n < |ordered|
    requires LoadedTo(sample, ordered, n, log) && NothingDangled(md, log)
    ensures NothingDangled(md, log + Loads(ordered[n], RowsOf(sample, ordered[n])))
  {
    var rows := RowsOf(sample, ordered[n]);
    var more := log + Loads(ordered[n], rows);
    forall a, target, id |
      0 <= a < |more| && !ReachesCycle(md, more[a].name) && Needs(md, more[a].name, more[a].row, target, id)
      ensures Loaded(more[..a], target, id)
    {
      if a < |log| {
        assert more[..a] == log[..a];
      } else {
        FoundEarlier(md, sample, ordered, n, log, more[a].row, target, id);
        LoadedStays(log, more[|log|..a], target, id);
        assert more[..a] == log + more[|log|..a];
      }
    }
  }

  lemma TableLoaded(sample: Sample, ordered: seq<string>, n: nat, log: seq<Load>)
    requires LoadedTo(sample, ordered, n, log) && n < |ordered|
    ensures LoadedTo(sample, ordered, n + 1, log + Loads(ordered[n], RowsOf(sample, ordered[n])))
  {
    var rows := RowsOf(sample, ordered[n]);
    forall i, k | 0 <= i < n + 1 && 0 <= k < |RowsOf(sample, ordered[i])|
      ensures Loaded(log + Loads(ordered[n], rows), ordered[i], RowsOf(sample, ordered[i])[k].id)
    {
      if i < n {
        LoadedStays(log, Loads(ordered[n], rows), ordered[i], RowsOf(sample, ordered[i])[k].id);
      } else {
        RowsLoaded(log, ordered[n], rows, k);
      }
    }
  }

  /**
    The load: table after table in the order. Whatever cycles the schema has, a row of a table
    from which none is reachable is loaded after every row it refers to.
   */
  method Seed(md: Schema, sample: Sample) returns (log: seq<Load>)
    ensures Closed(md, sample) ==> NothingDangled(md, log)
    ensures forall name, k :: name in md && 0 <= k < |RowsOf(sample, name)| ==> Loaded(log, name, RowsOf(sample, name)[k].id)
  {
    var ordered := TopoOrder(md);
    log := [];
    for n := 0 to |ordered|
      invariant LoadedTo(sample, ordered, n, log) && (Closed(md, sample) ==> NothingDangled(md, log))
    {
      var rows := RowsOf(sample, ordered[n]);
      if Closed(md, sample) {
        NextTable(md, sample, ordered, n, log);
      }
      TableLoaded(sample, ordered, n, log);
      log := log + Loads(ordered[n], rows);
    }
    forall name, k | name in md && 0 <= k < |RowsOf(sample, name)| ensures Loaded(log, name, RowsOf(sample, name)[k].id) {
      assert name in ordered;
      var i :| 0 <= i < |ordered| && ordered[i] == name;
    }
  }

  /** Two tables that refer to each other. */
  function Mutual(): Schema {
    map["a" := [ForeignKey("b_id", "b")], "b" := [ForeignKey("a_id", "a")]]
  }

  lemma MutualReachesCycle()
    ensures ReachesCycle(Mutual(), "a")
  {
    var md: Schema := Mutual();
    assert md["a"][0].target == "b" && md["b"][0].target == "a";
    var p := ["a", "b", "a"];
    assert Walk(md, p) && p[0] == p[2];
  }

  /** An instance of a cycle: no order of the two tables is right. */
  lemma MutualHasNoOrder(ordered: seq<string>)
    requires Complete(Mutual(), ordered)
    ensures !RespectsAll(Mutual(), ordered)
  {
    MutualReachesCycle();
    OrderRespectsAllExactlyWhen(Mutual(), ordered);
  }
}
