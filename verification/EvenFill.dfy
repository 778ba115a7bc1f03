/**
  One even-fill pass: how many new trials each task is given, and the submits that ask a
  target-based server for them.
 */
module EvenFill {
  import opened Common
  import opened Sorting

  // ---------------------------------------------------------------- counting one task's trials

  /** A trial as the pass classifies it: in flight, scored, or burnt by an infra failure. */
  datatype Kind = Pending | Valid | Burnt

  /** `held` counts progress toward the target, `existing` what the server counts. */
  datatype Cell = Cell(held: nat, pend: nat, valid: nat, existing: nat)

  function Count(trials: seq<Kind>, k: Kind): nat {
    if trials == [] then 0
    else Count(trials[..|trials| - 1], k) + (if trials[|trials| - 1] == k then 1 else 0)
  }

  method CountCell(trials: seq<Kind>) returns (c: Cell)
    ensures c == Cell(Count(trials, Pending) + Count(trials, Valid), Count(trials, Pending),
                      Count(trials, Valid), |trials|)
  {
    var held, pend, valid, existing := 0, 0, 0, 0;
    for i := 0 to |trials|
      invariant existing == i && pend == Count(trials[..i], Pending) && valid == Count(trials[..i], Valid)
      invariant held == pend + valid
    {
      assert trials[..i + 1][..i] == trials[..i];
      existing := existing + 1;
      match trials[i]
      case Pending => pend, held := pend + 1, held + 1;
      case Valid => valid, held := valid + 1, held + 1;
      case Burnt =>
    }
    assert trials[..|trials|] == trials;
    c := Cell(held, pend, valid, existing);
  }

  // ---------------------------------------------------------------- sums

  function Sum(xs: seq<int>): int {
    if xs == [] then 0 else Sum(xs[..|xs| - 1]) + xs[|xs| - 1]
  }

  lemma {:induction false} SumUpdate(xs: seq<int>, i: nat, x: int)
    requires i < |xs|
    ensures Sum(xs[i := x]) == Sum(xs) - xs[i] + x
  {
    var n := |xs| - 1;
    if i == n {
      assert xs[i := x][..n] == xs[..n];
    } else {
      assert xs[i := x][..n] == xs[..n][i := x];
      SumUpdate(xs[..n], i, x);
    }
  }

  lemma {:induction false} SumPlus(xs: seq<int>, ys: seq<int>, zs: seq<int>)
    requires |xs| == |ys| == |zs| && forall i :: 0 <= i < |xs| ==> zs[i] == xs[i] + ys[i]
    ensures Sum(zs) == Sum(xs) + Sum(ys)
  {
    if xs != [] {
      SumPlus(xs[..|xs| - 1], ys[..|ys| - 1], zs[..|zs| - 1]);
    }
  }

  lemma {:induction false} SumOfNats(xs: seq<int>)
    requires forall i :: 0 <= i < |xs| ==> xs[i] >= 0
    ensures Sum(xs) >= 0 && forall i :: 0 <= i < |xs| ==> xs[i] <= Sum(xs)
  {
    if xs != [] {
      SumOfNats(xs[..|xs| - 1]);
      forall i | 0 <= i < |xs| ensures xs[i] <= Sum(xs) {
        if i < |xs| - 1 {
          assert xs[..|xs| - 1][i] == xs[i];
        }
      }
    }
  }

  // ---------------------------------------------------------------- the per-task allocation

  function Max(a: int, b: int): int { if a > b then a else b }

  function Min(a: int, b: int): int { if a < b then a else b }

  /** What a task is first topped up by: to `perTask` in flight, never past its target. */
  function TopUp(c: Cell, perTask: int, target: int): (r: int)
    ensures r >= 0 && (r > 0 ==> c.pend + r <= perTask && c.held + r <= target)
    ensures c.held < target ==> c.pend + r >= perTask || c.held + r == target
  {
    if c.held >= target then 0 else Max(0, Min(perTask - c.pend, target - c.held))
  }

  function TopUps(cells: seq<Cell>, perTask: int, target: int): (r: seq<int>)
    ensures |r| == |cells| && forall i :: 0 <= i < |cells| ==> r[i] == TopUp(cells[i], perTask, target)
  {
    seq(|cells|, i requires 0 <= i < |cells| => TopUp(cells[i], perTask, target))
  }

  /** What each task could still take after its top-up; a task at target takes no part. */
  function Rooms(cells: seq<Cell>, perTask: int, target: int): (r: seq<int>)
    ensures |r| == |cells|
    ensures forall i :: 0 <= i < |cells| ==>
      r[i] == if cells[i].held >= target then 0 else target - cells[i].held - TopUp(cells[i], perTask, target)
    ensures forall i :: 0 <= i < |cells| ==> r[i] >= 0
  {
    seq(|cells|, i requires 0 <= i < |cells| =>
      if cells[i].held >= target then 0 else target - cells[i].held - TopUp(cells[i], perTask, target))
  }

  /** `order` lists the tasks below target, those with fewest valid trials and then fewest held first. */
  ghost predicate NeediestFirst(order: seq<nat>, cells: seq<Cell>, target: int) {
    && (forall a :: 0 <= a < |order| ==> order[a] < |cells| && cells[order[a]].held < target)
    && (forall i :: 0 <= i < |cells| && cells[i].held < target ==> i in order)
    && (forall a, b :: 0 <= a < b < |order| ==> order[a] != order[b])
    && (forall a, b :: 0 <= a < b < |order| ==>
          || cells[order[a]].valid < cells[order[b]].valid
          || (cells[order[a]].valid == cells[order[b]].valid && cells[order[a]].held <= cells[order[b]].held))
  }

  /** After `rounds` full rounds and `pos` tasks of the next, task `a` of the order has this much extra. */
  function WaterLevel(rounds: nat, pos: nat, a: nat, room: int): int {
    Min(if a < pos then rounds + 1 else rounds, room)
  }

  /** The extra trials stand at one water level along the order, and no task off the order gets any. */
  ghost predicate Level(extra: seq<int>, room: seq<int>, order: seq<nat>, rounds: nat, pos: nat) {
    && |extra| == |room| && (forall a :: 0 <= a < |order| ==> order[a] < |room|)
    && (forall a :: 0 <= a < |order| ==> extra[order[a]] == WaterLevel(rounds, pos, a, room[order[a]]))
    && (forall i :: 0 <= i < |extra| && i !in order ==> extra[i] == 0)
  }

  /** Round-robin fairness along the order. */
  ghost predicate Fair(extra: seq<int>, room: seq<int>, order: seq<nat>) {
    && |extra| == |room| && (forall a :: 0 <= a < |order| ==> order[a] < |room|)
    && forall a, b :: 0 <= a < b < |order| ==>
         && extra[order[a]] >= Min(extra[order[b]], room[order[a]])
         && extra[order[b]] >= Min(extra[order[a]] - 1, room[order[b]])
  }

  lemma LevelIsFair(extra: seq<int>, room: seq<int>, order: seq<nat>, rounds: nat, pos: nat)
    requires Level(extra, room, order, rounds, pos) && forall i :: 0 <= i < |room| ==> room[i] >= 0
    ensures Fair(extra, room, order)
  {
  }

  /** `room` is what is left of `room0` after `extra`. */
  ghost predicate Left(room: seq<int>, extra: seq<int>, room0: seq<int>) {
    && |room| == |extra| == |room0|
    && forall i :: 0 <= i < |room| ==> room[i] == room0[i] - extra[i] && 0 <= room[i] && 0 <= extra[i]
  }

  ghost predicate Ordering(order: seq<nat>, n: nat) {
    && (forall a :: 0 <= a < |order| ==> order[a] < n)
    && (forall a, b :: 0 <= a < b < |order| ==> order[a] != order[b])
  }

  /** One task of a round: it gets one more if it has room. */
  lemma GiveOne(room: seq<int>, extra: seq<int>, room0: seq<int>, order: seq<nat>, rounds: nat, k: nat)
    requires Left(room, extra, room0) && Ordering(order, |room0|) && k < |order|
    requires Level(extra, room0, order, rounds, k)
    ensures var name := order[k];
      if room[name] > 0 then
        && Level(extra[name := extra[name] + 1], room0, order, rounds, k + 1)
        && Left(room[name := room[name] - 1], extra[name := extra[name] + 1], room0)
        && Sum(extra[name := extra[name] + 1]) == Sum(extra) + 1
      else Level(extra, room0, order, rounds, k + 1)
  {
    var name := order[k];
    assert name in order;
    SumUpdate(extra, name, extra[name] + 1);
    forall a | 0 <= a < |order| && a != k ensures order[a] != name {}
  }

  /** One round along the order; it stops early when the floor is met. */
  method OneRound(
      floor: int, room0: seq<int>, order: seq<nat>, room: seq<int>, extra: seq<int>, projected: int, ghost rounds: nat)
    returns (room': seq<int>, extra': seq<int>, projected': int, progressed: bool, ghost pos: nat)
    requires Left(room, extra, room0) && Ordering(order, |room0|) && projected < floor
    requires Level(extra, room0, order, rounds, 0)
    ensures Left(room', extra', room0) && pos <= |order| && Level(extra', room0, order, rounds, pos)
    ensures projected' == projected + Sum(extra') - Sum(extra) && projected' <= floor
    ensures projected' < floor ==> pos == |order|
    ensures if progressed then Sum(extra') > Sum(extra)
            else extra' == extra && projected' == projected && forall a :: 0 <= a < |order| ==> room[order[a]] == 0
  {
    room', extra', projected', progressed, pos := room, extra, projected, false, 0;
    for k := 0 to |order|
      invariant Left(room', extra', room0) && Level(extra', room0, order, rounds, k) && pos == k
      invariant projected' == projected + Sum(extra') - Sum(extra) && projected' <= floor
      invariant if progressed then Sum(extra') > Sum(extra)
                else room' == room && extra' == extra && projected' == projected
                     && forall a :: 0 <= a < k ==> room[order[a]] == 0
    {
      if projected' >= floor {
        break;
      }
      var name := order[k];
      GiveOne(room', extra', room0, order, rounds, k);
      if room'[name] > 0 {
        extra' := extra'[name := extra'[name] + 1];
        room' := room'[name := room'[name] - 1];
        projected' := projected' + 1;
        progressed := true;
      }
      pos := k + 1;
    }
  }

  lemma NextRound(extra: seq<int>, room: seq<int>, order: seq<nat>, rounds: nat)
    requires Level(extra, room, order, rounds, |order|)
    ensures Level(extra, room, order, rounds + 1, 0)
  {
  }

  lemma NothingLeft(room: seq<int>, extra: seq<int>, room0: seq<int>, order: seq<nat>, rounds: nat, pos: nat)
    requires Left(room, extra, room0) && Level(extra, room0, order, rounds, pos)
    requires forall a :: 0 <= a < |order| ==> room[order[a]] == 0
    requires forall i :: 0 <= i < |room0| && i !in order ==> room0[i] == 0
    ensures Sum(extra) == Sum(room0)
  {
    forall i | 0 <= i < |room0| ensures extra[i] == room0[i] {
      if i in order {
        var a :| 0 <= a < |order| && order[a] == i;
      }
    }
    assert extra == room0;
  }

  lemma {:induction false} SumAtMost(xs: seq<int>, ys: seq<int>)
    requires |xs| == |ys| && forall i :: 0 <= i < |xs| ==> xs[i] <= ys[i]
    ensures Sum(xs) <= Sum(ys)
  {
    if xs != [] {
      SumAtMost(xs[..|xs| - 1], ys[..|ys| - 1]);
    }
  }

  /**
    The surplus loop: hand out one trial at a time, round after round along the order, until the
    floor is met or every task is at its target.
   */
  method HandOut(base: int, floor: int, room0: seq<int>, order: seq<nat>) returns (extra: seq<int>)
    requires forall i :: 0 <= i < |room0| ==> room0[i] >= 0
    requires Ordering(order, |room0|)
    requires forall i :: 0 <= i < |room0| && i !in order ==> room0[i] == 0
    ensures |extra| == |room0| && forall i :: 0 <= i < |extra| ==> 0 <= extra[i] <= room0[i]
    ensures base + Sum(extra) == Max(base, Min(floor, base + Sum(room0)))
    ensures Fair(extra, room0, order)
  {
    ghost var room, rounds, pos;
    extra, room, rounds, pos := HandOutRounds(base, floor, room0, order);
    LevelIsFair(extra, room0, order, rounds, pos);
  }

  /** Its rounds, and the water level they end at. */
  method HandOutRounds(base: int, floor: int, room0: seq<int>, order: seq<nat>)
    returns (extra: seq<int>, ghost left: seq<int>, ghost rounds: nat, ghost pos: nat)
    requires forall i :: 0 <= i < |room0| ==> room0[i] >= 0
    requires Ordering(order, |room0|)
    requires forall i :: 0 <= i < |room0| && i !in order ==> room0[i] == 0
    ensures Left(left, extra, room0) && Level(extra, room0, order, rounds, pos)
    ensures base + Sum(extra) == Max(base, Min(floor, base + Sum(room0)))
  {
    var room := room0;
    extra := seq(|room0|, _ => 0);
    SumZero(extra);
    assert Sum(room0) >= 0 by { SumOfNats(room0); }
    var projected := base;
    rounds, pos := 0, 0;
    while projected < floor
      invariant Left(room, extra, room0) && Level(extra, room0, order, rounds, pos)
      invariant projected == base + Sum(extra) && (projected == base || projected <= floor)
      invariant 0 <= Sum(extra) <= Sum(room0)
      invariant projected < floor ==> pos == 0
      decreases Sum(room0) - Sum(extra)
    {
      var progressed;
      ghost var held, kept := extra, room;
      room, extra, projected, progressed, pos := OneRound(floor, room0, order, room, extra, projected, rounds);
      assert Sum(extra) <= Sum(room0) by { SumAtMost(extra, room0); }
      if !progressed {
        NothingLeft(kept, extra, room0, order, rounds, 0);
        break;
      }
      if projected < floor {
        NextRound(extra, room0, order, rounds);
        rounds, pos := rounds + 1, 0;
      }
    }
    left := room;
  }

  lemma {:induction false} SumZero(xs: seq<int>)
    requires forall i :: 0 <= i < |xs| ==> xs[i] == 0
    ensures Sum(xs) == 0
  {
    if xs != [] {
      SumZero(xs[..|xs| - 1]);
    }
  }

  /** The sort key of `neediest`: fewest valid, then fewest held; ties keep the tasks' own order. */
  function Needier(cells: seq<Cell>): (nat, nat) -> bool {
    (a: nat, b: nat) =>
      if a >= |cells| || b >= |cells| then b >= |cells| && (a < |cells| || a <= b)
      else if cells[a].valid != cells[b].valid then cells[a].valid < cells[b].valid
      else if cells[a].held != cells[b].held then cells[a].held < cells[b].held
      else a <= b
  }

  /** The tasks below target, in the order of the status listing. */
  method Below(cells: seq<Cell>, target: int) returns (ids: seq<nat>)
    ensures Distinct(ids) && forall i: nat :: i in ids <==> i < |cells| && cells[i].held < target
  {
    ids := [];
    for i := 0 to |cells|
      invariant Distinct(ids) && forall j: nat :: j in ids <==> j < i && cells[j].held < target
    {
      if cells[i].held < target {
        ids := ids + [i];
      }
    }
  }

  method Neediest(cells: seq<Cell>, target: int) returns (order: seq<nat>)
    ensures NeediestFirst(order, cells, target)
  {
    var ids := Below(cells, target);
    order := Sorted(ids, Needier(cells));
    forall a | 0 <= a < |order| ensures order[a] < |cells| && cells[order[a]].held < target {
      assert order[a] in order;
    }
    forall a, b | 0 <= a < b < |order|
      ensures cells[order[a]].valid < cells[order[b]].valid
           || (cells[order[a]].valid == cells[order[b]].valid && cells[order[a]].held <= cells[order[b]].held)
    {
      assert Needier(cells)(order[a], order[b]);
    }
  }

  function InFlight(cells: seq<Cell>): (r: int)
    ensures r >= 0
  {
    if cells == [] then 0 else InFlight(cells[..|cells| - 1]) + cells[|cells| - 1].pend
  }

  /** What each task is given over its top-up. */
  function Surplus(want: seq<int>, base: seq<int>): (r: seq<int>)
    requires |want| == |base|
    ensures |r| == |want| && forall i :: 0 <= i < |r| ==> r[i] == want[i] - base[i]
  {
    seq(|want|, i requires 0 <= i < |want| => want[i] - base[i])
  }

  /** The surplus of a floor `minTotal`, over the top-ups. */
  ghost predicate FloorMet(cells: seq<Cell>, perTask: int, target: int, minTotal: int, extra: seq<int>, order: seq<nat>) {
    var base := InFlight(cells) + Sum(TopUps(cells, perTask, target));
    var room := Rooms(cells, perTask, target);
    && |extra| == |cells| && (forall i :: 0 <= i < |extra| ==> 0 <= extra[i] <= room[i])
    && base + Sum(extra) == Max(base, Min(minTotal, base + Sum(room)))
    && Fair(extra, room, order)
  }

  method ReachFloor(cells: seq<Cell>, perTask: int, target: int, minTotal: int, order: seq<nat>)
    returns (extra: seq<int>)
    requires NeediestFirst(order, cells, target)
    ensures FloorMet(cells, perTask, target, minTotal, extra, order)
  {
    var room := Rooms(cells, perTask, target);
    forall i | 0 <= i < |room| && i !in order ensures room[i] == 0 {
      assert cells[i].held >= target;
    }
    extra := HandOut(InFlight(cells) + Sum(TopUps(cells, perTask, target)), minTotal, room, order);
  }

  /**
    The whole allocation of per-task mode: the top-ups, and when a floor is set the surplus on
    top of them, neediest task first.
   */
  method Allocate(cells: seq<Cell>, perTask: int, target: int, minTotal: int)
    returns (want: seq<int>, order: seq<nat>)
    ensures |want| == |cells| && NeediestFirst(order, cells, target)
    ensures forall i :: 0 <= i < |cells| ==> TopUp(cells[i], perTask, target) <= want[i] && 0 <= want[i]
    ensures forall i :: 0 <= i < |cells| ==>
      if cells[i].held >= target then want[i] == 0 else cells[i].held + want[i] <= target
    ensures minTotal == 0 ==> want == TopUps(cells, perTask, target)
    ensures minTotal != 0 ==>
      var base := TopUps(cells, perTask, target);
      FloorMet(cells, perTask, target, minTotal, Surplus(want, base), order) && Sum(want) == Sum(base) + Sum(Surplus(want, base))
  {
    var first := TopUps(cells, perTask, target);
    order := Neediest(cells, target);
    want := first;
    if minTotal != 0 {
      var extra := ReachFloor(cells, perTask, target, minTotal, order);
      want := Plus(first, extra);
      SumPlus(first, extra, want);
      assert Surplus(want, first) == extra;
    }
  }

  function Plus(xs: seq<int>, ys: seq<int>): (r: seq<int>)
    requires |xs| == |ys|
    ensures |r| == |xs| && forall i :: 0 <= i < |r| ==> r[i] == xs[i] + ys[i]
  {
    seq(|xs|, i requires 0 <= i < |xs| => xs[i] + ys[i])
  }

  // ---------------------------------------------------------------- the target-based server

  /** What the server still has of one task's trials. */
  datatype Tally = Tally(pend: nat, valid: nat, burnt: nat) {
    function Existing(): nat { pend + valid + burnt }
    function Held(): nat { pend + valid }
    function Seen(): Cell { Cell(Held(), pend, valid, Existing()) }
  }

  /** From `a` to `b` task i gained `made[i]` trials; otherwise pending ones may have ended. */
  ghost predicate Grown(a: seq<Tally>, b: seq<Tally>, made: seq<int>) {
    && |a| == |b| == |made|
    && forall i :: 0 <= i < |a| ==>
         && made[i] >= 0 && b[i].Existing() == a[i].Existing() + made[i]
         && b[i].pend <= a[i].pend + made[i] && b[i].valid >= a[i].valid && b[i].burnt >= a[i].burnt
  }

  ghost function Zeros(n: nat): (r: seq<int>)
    ensures |r| == n && forall i :: 0 <= i < n ==> r[i] == 0
  {
    seq(n, _ => 0)
  }

  ghost function Only(n: nat, i: nat, x: int): (r: seq<int>)
    requires i < n
    ensures |r| == n && r[i] == x && forall j :: 0 <= j < n && j != i ==> r[j] == 0
  {
    Zeros(n)[i := x]
  }

  lemma GrownTrans(a: seq<Tally>, b: seq<Tally>, c: seq<Tally>, m: seq<int>, n: seq<int>)
    requires Grown(a, b, m) && Grown(b, c, n)
    ensures Grown(a, c, Plus(m, n))
  {
  }

  lemma GrownAt(a: seq<Tally>, b: seq<Tally>, c: seq<Tally>, made: seq<int>, i: nat, m: int)
    requires i < |made| && Grown(a, b, made) && made[i] == 0 && Grown(b, c, Only(|b|, i, m))
    ensures Grown(a, c, made[i := m])
  {
    GrownTrans(a, b, c, made, Only(|b|, i, m));
    assert Plus(made, Only(|b|, i, m)) == made[i := m];
  }

  lemma GrownMore(a: seq<Tally>, b: seq<Tally>, c: seq<Tally>, i: nat, m: int, n: int)
    requires i < |a| == |b| && Grown(a, b, Only(|a|, i, m)) && Grown(b, c, Only(|b|, i, n))
    ensures Grown(a, c, Only(|a|, i, m + n))
  {
    GrownTrans(a, b, c, Only(|a|, i, m), Only(|b|, i, n));
    assert Plus(Only(|a|, i, m), Only(|b|, i, n)) == Only(|a|, i, m + n);
  }

  /** What the calls of one submit have made so far: nothing, or all that was missing up to `n`. */
  ghost predicate AskedFor(before: seq<Tally>, now: seq<Tally>, i: nat, n: int, ok: bool, made: int) {
    && i < |before| && Grown(before, now, Only(|before|, i, made))
    && (made == 0 || made == n - before[i].Existing()) && (ok ==> made == Max(0, n - before[i].Existing()))
  }

  function TotalPending(ts: seq<Tally>): nat {
    if ts == [] then 0 else TotalPending(ts[..|ts| - 1]) + ts[|ts| - 1].pend
  }

  /** In-flight trials grow by no more than what was made. */
  lemma {:induction false} PendingGrows(a: seq<Tally>, b: seq<Tally>, made: seq<int>)
    requires Grown(a, b, made)
    ensures TotalPending(b) <= TotalPending(a) + Sum(made)
  {
    if a != [] {
      var n := |a| - 1;
      PendingGrows(a[..n], b[..n], made[..n]);
    }
  }

  function SeenAll(ts: seq<Tally>): (r: seq<Cell>)
    ensures |r| == |ts| && forall i :: 0 <= i < |r| ==> r[i] == ts[i].Seen()
  {
    seq(|ts|, i requires 0 <= i < |ts| => ts[i].Seen())
  }

  lemma {:induction false} SeenInFlight(ts: seq<Tally>)
    ensures InFlight(SeenAll(ts)) == TotalPending(ts)
  {
    if ts != [] {
      var n := |ts| - 1;
      SeenInFlight(ts[..n]);
      assert SeenAll(ts)[..n] == SeenAll(ts[..n]);
    }
  }

  /** The part of an order that wants something. */
  ghost function Wanting(order: seq<nat>, want: seq<int>): seq<nat> {
    if order == [] then []
    else
      var last := order[|order| - 1];
      Wanting(order[..|order| - 1], want) + (if last < |want| && want[last] > 0 then [last] else [])
  }

  /** Of the first `k` of an order each got what it wants unless its submits may go unheard. */
  ghost predicate WantGiven(made: seq<int>, want: seq<int>, order: seq<nat>, k: nat, faulty: set<nat>) {
    forall a :: 0 <= a < k && a < |order| && order[a] < |made| && order[a] < |want| && order[a] !in faulty ==>
      made[order[a]] == Max(0, want[order[a]])
  }

  ghost predicate Asked(made: seq<int>, want: seq<int>) {
    |made| == |want| && forall i :: 0 <= i < |made| ==> 0 <= made[i] <= Max(0, want[i])
  }

  /** The first `k` of the order have had their submits, the others have not. */
  ghost predicate Submitted(before: seq<Tally>, now: seq<Tally>, made: seq<int>, want: seq<int>, order: seq<nat>, k: nat,
      faulty: set<nat>)
  {
    && Grown(before, now, made) && Asked(made, want) && WantGiven(made, want, order, k, faulty)
    && forall a :: k <= a < |order| ==> order[a] < |made| && made[order[a]] == 0
  }

  lemma SubmittedNext(before: seq<Tally>, here: seq<Tally>, now: seq<Tally>, made: seq<int>, want: seq<int>, order: seq<nat>,
      k: nat, m: int, faulty: set<nat>)
    requires Submitted(before, here, made, want, order, k, faulty) && Ordering(order, |made|) && k < |order|
    requires Grown(before, now, made[order[k] := m])
    requires (m == 0 && want[order[k]] <= 0) || (m == want[order[k]] > 0) || (m == 0 && order[k] in faulty)
    ensures Submitted(before, now, made[order[k] := m], want, order, k + 1, faulty)
  {
  }

  lemma WantingNext(order: seq<nat>, want: seq<int>, k: nat)
    requires k < |order| && order[k] < |want|
    ensures Wanting(order[..k + 1], want) == Wanting(order[..k], want) + (if want[order[k]] > 0 then [order[k]] else [])
  {
    assert order[..k + 1][..k] == order[..k];
  }

  // ---------------------------------------------------------------- cap mode

  function Headroom(ts: seq<Tally>, cap: int, batch: int): int {
    if batch != 0 then Min(cap - TotalPending(ts), batch) else cap - TotalPending(ts)
  }

  ghost predicate OnePerShortTask(before: seq<Tally>, made: seq<int>, target: int) {
    && |made| == |before|
    && forall i :: 0 <= i < |made| ==> 0 <= made[i] <= 1 && (made[i] == 1 ==> before[i].Held() < target)
  }

  /** `order` is the tasks below target, fewest held first and by name within; names are positions here. */
  ghost predicate FewestHeldFirst(order: seq<nat>, cells: seq<Cell>, target: int) {
    && Ordering(order, |cells|)
    && (forall i: nat :: i in order <==> i < |cells| && cells[i].held < target)
    && forall a, b :: 0 <= a < b < |order| ==>
         cells[order[a]].held < cells[order[b]].held || (cells[order[a]].held == cells[order[b]].held && order[a] < order[b])
  }

  /** Only the first `asked` of the short tasks have been asked for. */
  ghost predicate EvenProgress(before: seq<Tally>, target: int, made: seq<int>, order: seq<nat>, asked: nat) {
    && OnePerShortTask(before, made, target) && FewestHeldFirst(order, SeenAll(before), target)
    && asked <= |order| && forall a :: asked <= a < |order| ==> made[order[a]] == 0
  }

  /** Of the first `asked` each got its trial unless its submits may go unheard. */
  ghost predicate HeardGiven(made: seq<int>, order: seq<nat>, asked: nat, faulty: set<nat>) {
    forall a :: 0 <= a < asked && a < |order| && order[a] !in faulty ==> order[a] < |made| && made[order[a]] == 1
  }

  /** How many of these may go unheard. */
  ghost function Faults(order: seq<nat>, faulty: set<nat>): nat {
    if order == [] then 0
    else Faults(order[..|order| - 1], faulty) + (if order[|order| - 1] in faulty then 1 else 0)
  }

  lemma {:induction false} FewFaults(order: seq<nat>, faulty: set<nat>)
    requires forall a, b :: 0 <= a < b < |order| ==> order[a] != order[b]
    ensures Faults(order, faulty) <= |faulty|
  {
    if order != [] {
      var n := |order| - 1;
      if order[n] in faulty {
        FewFaults(order[..n], faulty - {order[n]});
        SameFaults(order[..n], faulty, order[n]);
      } else {
        FewFaults(order[..n], faulty);
      }
    }
  }

  lemma {:induction false} SameFaults(order: seq<nat>, faulty: set<nat>, x: nat)
    requires forall a :: 0 <= a < |order| ==> order[a] != x
    ensures Faults(order, faulty - {x}) == Faults(order, faulty)
  {
    if order != [] {
      SameFaults(order[..|order| - 1], faulty, x);
    }
  }

  lemma StepProgress(
      before: seq<Tally>, target: int, made: seq<int>, order: seq<nat>, k: nat, m: int, faulty: set<nat>)
    requires EvenProgress(before, target, made, order, k) && k < |order| && 0 <= m <= 1
    requires HeardGiven(made, order, k, faulty) && (order[k] in faulty || m == 1)
    ensures EvenProgress(before, target, made[order[k] := m], order, k + 1)
    ensures HeardGiven(made[order[k] := m], order, k + 1, faulty)
  {
    assert order[k] in order;
  }

  /**
    The first `k` short tasks were asked for: `acked` submits were acknowledged, `lost` made a
    trial unheard, no more than there were faulty ones.
   */
  ghost predicate Spent(before: seq<Tally>, now: seq<Tally>, target: int, order: seq<nat>, k: nat, made: seq<int>,
      acked: nat, lost: int, faulty: set<nat>)
  {
    && Grown(before, now, made) && Sum(made) == acked + lost && EvenProgress(before, target, made, order, k)
    && acked <= k && HeardGiven(made, order, k, faulty) && 0 <= lost <= Faults(order[..k], faulty)
  }

  /** The submits so far, and then those for the first `k` of the order. */
  ghost predicate AskedTo(asked0: seq<nat>, asked: seq<nat>, order: seq<nat>, k: nat) {
    k <= |order| && asked == asked0 + order[..k]
  }

  lemma AskedNext(asked0: seq<nat>, asked: seq<nat>, order: seq<nat>, k: nat)
    requires AskedTo(asked0, asked, order, k) && k < |order|
    ensures AskedTo(asked0, asked + [order[k]], order, k + 1)
  {
    assert order[..k + 1] == order[..k] + [order[k]];
  }

  lemma NothingSpent(before: seq<Tally>, target: int, order: seq<nat>, faulty: set<nat>)
    requires FewestHeldFirst(order, SeenAll(before), target)
    ensures Spent(before, before, target, order, 0, Zeros(|before|), 0, 0, faulty)
  {
    SumZero(Zeros(|before|));
  }

  lemma SpendStep(before: seq<Tally>, here: seq<Tally>, now: seq<Tally>, target: int, order: seq<nat>, k: nat,
      made: seq<int>, acked: nat, lost: int, ok: bool, m: int, faulty: set<nat>)
    requires k < |order| && Spent(before, here, target, order, k, made, acked, lost, faulty)
    requires order[k] < |made| && Grown(before, now, made[order[k] := m]) && 0 <= m <= 1 && (ok ==> m == 1)
    requires order[k] in faulty || ok
    ensures Spent(before, now, target, order, k + 1, made[order[k] := m],
                  if ok then acked + 1 else acked, if ok then lost else lost + m, faulty)
  {
    SumUpdate(made, order[k], m);
    StepProgress(before, target, made, order, k, m, faulty);
    assert order[..k + 1][..k] == order[..k];
  }

  function Shorter(cells: seq<Cell>): (nat, nat) -> bool {
    (a: nat, b: nat) =>
      if a >= |cells| || b >= |cells| then b >= |cells| && (a < |cells| || a <= b)
      else if cells[a].held != cells[b].held then cells[a].held < cells[b].held
      else a <= b
  }

  method FewestHeld(cells: seq<Cell>, target: int) returns (order: seq<nat>)
    ensures FewestHeldFirst(order, cells, target)
  {
    var ids := Below(cells, target);
    order := Sorted(ids, Shorter(cells));
    forall a | 0 <= a < |order| ensures order[a] < |cells| && cells[order[a]].held < target {
      assert order[a] in order;
    }
    forall a, b | 0 <= a < b < |order|
      ensures cells[order[a]].held < cells[order[b]].held || (cells[order[a]].held == cells[order[b]].held && order[a] < order[b])
    {
      assert Shorter(cells)(order[a], order[b]);
    }
  }

  /** No task holds more than the target, or than it started with. */
  ghost predicate Within(before: seq<Tally>, now: seq<Tally>, target: int) {
    |now| == |before| && forall i :: 0 <= i < |now| ==> now[i].Held() <= Max(target, before[i].Held())
  }

  lemma StaysWithin(start: seq<Tally>, a: seq<Tally>, b: seq<Tally>, target: int, made: seq<int>)
    requires Within(start, a, target) && Grown(a, b, made)
    requires forall i :: 0 <= i < |a| ==> made[i] <= Max(0, target - a[i].Held())
    ensures Within(start, b, target)
  {
  }

  /**
    The server's trials of one experiment, one tally per task. The submits of the tasks in
    `faulty` may go wrong in any way; every other submit is acknowledged.
   */
  class Fleet {
    const faulty: set<nat>
    var tallies: seq<Tally>
    ghost var asked: seq<nat>   // the submits so far, in order
    ghost var unheard: int      // the trials made by submits that were never acknowledged

    constructor (ts: seq<Tally>, faulty: set<nat>)
      ensures tallies == ts && asked == [] && unheard == 0 && this.faulty == faulty
    {
      this.faulty, tallies, asked, unheard := faulty, ts, [], 0;
    }

    /** Any number of pending trials end, scored or burnt. */
    method TrialsEnd()
      modifies this`tallies
      ensures Grown(old(tallies), tallies, Zeros(|tallies|))
    {
      ghost var before := tallies;
      var more: bool := *;
      var steps: nat := *;
      while more && steps > 0
        invariant Grown(before, tallies, Zeros(|tallies|))
      {
        var i: int := *;
        if 0 <= i < |tallies| && tallies[i].pend > 0 {
          var t := tallies[i];
          var scored: bool := *;
          tallies := tallies[i := if scored then Tally(t.pend - 1, t.valid + 1, t.burnt)
                                  else Tally(t.pend - 1, t.valid, t.burnt + 1)];
        }
        more := *;
        steps := steps - 1;
      }
    }

    /** The server's side of one submit with `--n-trials n`: it creates what is missing up to `n`. */
    method Resolve(i: nat, n: int) returns (made: nat)
      requires i < |tallies|
      modifies this`tallies
      ensures made == Max(0, n - old(tallies[i]).Existing())
      ensures Grown(old(tallies), tallies, Only(|old(tallies)|, i, made))
    {
      made := Max(0, n - tallies[i].Existing());
      tallies := tallies[i := tallies[i].(pend := tallies[i].pend + made)];
    }

    /**
      One submit with its retries. A faulty call may be lost on the way, may be carried out with
      its reply lost, may be refused for good, or may be acknowledged; trials go on ending meanwhile.
     */
    method Submit(i: nat, n: int) returns (ok: bool, ghost made: int)
      requires i < |tallies|
      modifies this
      ensures Grown(old(tallies), tallies, Only(|old(tallies)|, i, made))
      ensures made == 0 || made == n - old(tallies[i]).Existing()
      ensures ok ==> made == Max(0, n - old(tallies[i]).Existing())
      ensures i !in faulty ==> ok
      ensures asked == old(asked) + [i] && unheard == old(unheard) + (if ok then 0 else made)
    {
      ghost var before := tallies;
      asked := asked + [i];
      ok, made := false, 0;
      var attempt := 1;
      while attempt <= 3 && !ok
        invariant 1 <= attempt <= 4 && |tallies| == |before|
        invariant AskedFor(before, tallies, i, n, ok, made)
        invariant i !in faulty && attempt > 1 ==> ok
        invariant asked == old(asked) + [i] && unheard == old(unheard)
      {
        var refused;
        ok, refused, made := Attempt(before, i, n, made);
        if refused {
          break;
        }
        attempt := attempt + 1;
      }
      unheard := unheard + if ok then 0 else made;
    }

    /** One call of the submit, and what ends before the next. */
    method Attempt(ghost before: seq<Tally>, i: nat, n: int, ghost made0: int) returns (ok: bool, refused: bool, ghost made: int)
      requires AskedFor(before, tallies, i, n, false, made0)
      modifies this`tallies
      ensures AskedFor(before, tallies, i, n, ok, made) && (i !in faulty ==> ok && !refused)
    {
      made := made0;
      var arrives, replies, aborts: bool := *, *, *;
      if i !in faulty {
        arrives, replies, aborts := true, true, false;
      }
      ok, refused := false, aborts && replies;
      if arrives && !aborts {
        ghost var here := tallies;
        var created := Resolve(i, n);
        GrownMore(before, here, tallies, i, made, created);
        made := made + created;
        ok := replies;
      }
      ghost var there := tallies;
      TrialsEnd();
      assert Zeros(|there|) == Only(|there|, i, 0);
      GrownMore(before, there, tallies, i, made, 0);
    }

    /** The submits of one per-task pass, one task after another. */
    method SubmitAll(cells: seq<Cell>, want: seq<int>, order: seq<nat>) returns (ghost made: seq<int>)
      requires cells == SeenAll(tallies) && |want| == |cells| && Ordering(order, |cells|)
      modifies this
      ensures Grown(old(tallies), tallies, made) && Asked(made, want)
      ensures WantGiven(made, want, order, |order|, faulty)
      ensures asked == old(asked) + Wanting(order, want)
    {
      ghost var before, asked0 := tallies, asked;
      made := Zeros(|want|);
      for k := 0 to |order|
        invariant Submitted(before, tallies, made, want, order, k, faulty)
        invariant asked == asked0 + Wanting(order[..k], want)
      {
        WantingNext(order, want, k);
        made := SubmitNext(before, cells, want, order, k, made);
      }
      assert order[..|order|] == order;
    }

    /** The k-th task of the order: one submit if it wants something. */
    method SubmitNext(ghost before: seq<Tally>, cells: seq<Cell>, want: seq<int>, order: seq<nat>, k: nat, ghost made: seq<int>)
      returns (ghost made': seq<int>)
      requires cells == SeenAll(before) && |want| == |cells| && Ordering(order, |cells|) && k < |order|
      requires Submitted(before, tallies, made, want, order, k, faulty)
      modifies this
      ensures Submitted(before, tallies, made', want, order, k + 1, faulty)
      ensures asked == old(asked) + (if want[order[k]] > 0 then [order[k]] else [])
    {
      ghost var here, m := tallies, 0;
      if want[order[k]] > 0 {
        var ok;
        ok, m := SubmitOne(before, cells, want, order[k], made);
      } else {
        assert made[order[k] := 0] == made;
      }
      SubmittedNext(before, here, tallies, made, want, order, k, m, faulty);
      made' := made[order[k] := m];
    }

    /** One of those submits: the first for its row of the listing, so it asks for exactly what is wanted. */
    method SubmitOne(ghost before: seq<Tally>, cells: seq<Cell>, want: seq<int>, i: nat, ghost made: seq<int>)
      returns (ok: bool, ghost m: int)
      requires cells == SeenAll(before) && |want| == |cells| && i < |want| && want[i] > 0
      requires Grown(before, tallies, made) && made[i] == 0
      modifies this
      ensures Grown(before, tallies, made[i := m])
      ensures (m == 0 || m == want[i]) && (ok ==> m == want[i]) && (i !in faulty ==> ok)
      ensures asked == old(asked) + [i] && unheard == old(unheard) + (if ok then 0 else m)
    {
      ghost var here := tallies;
      assert here[i].Existing() == cells[i].existing;
      ok, m := Submit(i, cells[i].existing + want[i]);
      GrownAt(before, here, tallies, made, i, m);
    }

    /**
      One pass of per-task mode. Whatever gets lost, no task is given more than its allocation;
      one whose submits are heard is given exactly that.
     */
    method PerTaskPass(perTask: int, target: int, minTotal: int)
      returns (want: seq<int>, ghost made: seq<int>, ghost order: seq<nat>)
      modifies this
      ensures NeediestFirst(order, SeenAll(old(tallies)), target) && |want| == |old(tallies)|
      ensures asked == old(asked) + Wanting(order, want)
      ensures Grown(old(tallies), tallies, made) && Asked(made, want)
      ensures forall i :: 0 <= i < |want| && i !in faulty ==> made[i] == want[i]
      ensures forall i :: 0 <= i < |want| ==>
        if old(tallies)[i].Held() >= target then want[i] == 0 else 0 <= want[i] <= target - old(tallies)[i].Held()
    {
      var cells := SeenAll(tallies);
      var ids;
      want, ids := Allocate(cells, perTask, target, minTotal);
      order := ids;
      made := SubmitAll(cells, want, ids);
      forall i | 0 <= i < |want| && i !in faulty ensures made[i] == want[i] {
        if i in order {
          var a :| 0 <= a < |order| && order[a] == i;
        }
      }
    }

    /**
      One pass of cap mode: one new trial per short task, fewest held first, until the headroom is
      spent. What is made beyond the acknowledged trials is unheard, and only faulty submits are.
     */
    method CapPass(cap: int, batch: int, target: int) returns (acked: nat, ghost made: seq<int>)
      modifies this
      ensures Grown(old(tallies), tallies, made) && OnePerShortTask(old(tallies), made, target)
      ensures Sum(made) == acked + unheard - old(unheard) && 0 <= unheard - old(unheard) <= |faulty|
      ensures acked <= Max(0, Headroom(old(tallies), cap, batch))
      ensures acked <= Max(0, cap - TotalPending(old(tallies))) && (batch != 0 ==> acked <= Max(0, batch))
      ensures exists order, k: nat ::
        EvenProgress(old(tallies), target, made, order, k) && asked == old(asked) + order[..k]
        && HeardGiven(made, order, k, faulty)
        && (k < |order| ==> acked == Max(0, Headroom(old(tallies), cap, batch)))
        && (k < |order| ==> cap - TotalPending(old(tallies)) <= acked || (batch != 0 && batch <= acked))
    {
      var cells := SeenAll(tallies);
      SeenInFlight(tallies);
      var headroom := cap - InFlight(cells);
      if batch != 0 {
        headroom := Min(headroom, batch);
      }
      var order := FewestHeld(cells, target);
      ghost var k;
      acked, made, k := SpendHeadroom(cells, order, headroom, target);
      FewFaults(order[..k], faulty);
    }

    /** The submit for the k-th short task. */
    method SpendOne(ghost before: seq<Tally>, cells: seq<Cell>, ghost target: int, order: seq<nat>, k: nat,
        ghost made: seq<int>, ghost acked: nat, ghost lost: int)
      returns (ok: bool, ghost made': seq<int>)
      requires cells == SeenAll(before)
      requires k < |order| && Spent(before, tallies, target, order, k, made, acked, lost, faulty)
      modifies this
      ensures Spent(before, tallies, target, order, k + 1, made', if ok then acked + 1 else acked,
                    lost + unheard - old(unheard), faulty)
      ensures asked == old(asked) + [order[k]]
    {
      ghost var m, here := 0, tallies;
      var ones := seq(|cells|, _ => 1);
      ok, m := SubmitOne(before, cells, ones, order[k], made);
      SpendStep(before, here, tallies, target, order, k, made, acked, lost, ok, m, faulty);
      made' := made[order[k] := m];
    }

    /** One submit for one more trial after another, until the headroom is spent. */
    method SpendHeadroom(cells: seq<Cell>, order: seq<nat>, room: int, target: int)
      returns (acked: nat, ghost made: seq<int>, ghost done: nat)
      requires cells == SeenAll(tallies) && FewestHeldFirst(order, cells, target)
      modifies this
      ensures Spent(old(tallies), tallies, target, order, done, made, acked, unheard - old(unheard), faulty)
      ensures done <= |order| && asked == old(asked) + order[..done]
      ensures acked <= Max(0, room) && (done < |order| ==> acked == Max(0, room))
    {
      ghost var before, asked0, unheard0 := tallies, asked, unheard;
      var headroom := room;
      acked, made := 0, Zeros(|before|);
      NothingSpent(before, target, order, faulty);
      var k := 0;
      while k < |order| && headroom > 0
        invariant headroom == room - acked && acked <= Max(0, room)
        invariant AskedTo(asked0, asked, order, k)
        invariant Spent(before, tallies, target, order, k, made, acked, unheard - unheard0, faulty)
      {
        var ok;
        AskedNext(asked0, asked, order, k);
        ok, made := SpendOne(before, cells, target, order, k, made, acked, unheard - unheard0);
        if ok {
          acked, headroom := acked + 1, headroom - 1;
        }
        k := k + 1;
      }
      done := k;
    }

    /**
      Any number of passes in one configuration, with trials ending in between: no task is ever
      taken past the target, and in cap mode only trials made unheard exceed the cap, so none do
      when every reply is heard.
     */
    method Passes(passes: nat, perTask: int, cap: int, batch: int, target: int, minTotal: int)
      modifies this
      ensures |tallies| == |old(tallies)|
      ensures forall i :: 0 <= i < |tallies| ==> tallies[i].Held() <= Max(target, old(tallies)[i].Held())
      ensures perTask == 0 ==>
        && TotalPending(tallies) <= Max(cap, TotalPending(old(tallies))) + unheard - old(unheard)
        && unheard - old(unheard) <= passes * |faulty|
      ensures perTask == 0 && faulty == {} ==> TotalPending(tallies) <= Max(cap, TotalPending(old(tallies)))
    {
      ghost var before := tallies;
      for n := 0 to passes
        invariant Within(before, tallies, target)
        invariant perTask == 0 ==>
          && TotalPending(tallies) <= Max(cap, TotalPending(before)) + unheard - old(unheard)
          && 0 <= unheard - old(unheard) <= n * |faulty|
      {
        ghost var here := tallies;
        ghost var made := AnyPass(perTask, cap, batch, target, minTotal);
        StaysWithin(before, here, tallies, target, made);
        ghost var there := tallies;
        TrialsEnd();
        SumZero(Zeros(|tallies|));
        PendingGrows(there, tallies, Zeros(|tallies|));
        StaysWithin(before, there, tallies, target, Zeros(|tallies|));
        OneMore(n, |faulty|);
      }
    }

    /** One pass in either mode. */
    method AnyPass(perTask: int, cap: int, batch: int, target: int, minTotal: int) returns (ghost made: seq<int>)
      modifies this
      ensures Grown(old(tallies), tallies, made)
      ensures forall i :: 0 <= i < |made| ==> made[i] <= Max(0, target - old(tallies)[i].Held())
      ensures perTask == 0 ==>
        && TotalPending(tallies) <= Max(cap, TotalPending(old(tallies))) + unheard - old(unheard)
        && 0 <= unheard - old(unheard) <= |faulty|
    {
      if perTask != 0 {
        var want; ghost var order;
        want, made, order := PerTaskPass(perTask, target, minTotal);
      } else {
        ghost var before := tallies;
        var acked;
        acked, made := CapPass(cap, batch, target);
        PendingGrows(before, tallies, made);
      }
    }
  }

  lemma OneMore(n: nat, x: nat)
    ensures n * x + x == (n + 1) * x
  {
  }
}
