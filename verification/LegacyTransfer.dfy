/**
  The import ledger of the legacy migration: each row's trial is created under an idempotency
  key derived from its prefix, then patched with its origin and the row marked transferred in
  one transaction.  Groups run concurrently, any call may raise, and the process may crash at
  any await and be run again.
 */
module LegacyTransfer {
  import opened Common
  import opened Sets

  datatype Status = Discovered | Transferred | Failed

  datatype Entry = Entry(status: Status, trial: Option<nat>)

  /** `import:{ext}:{experiment}`: both hashes are taken to be injective, so their inputs stand for them. */
  datatype Key = Key(ext: string, experiment: string)

  datatype Trial = Trial(key: Option<Key>, origin: Option<string>)

  datatype Tables = Tables(ledger: map<string, Entry>, trials: map<nat, Trial>)

  const AGENT_SEGMENT := "/agent-"

  /** The run root: everything above the first `/agent-`. */
  function RootOf(prefix: string): (r: string)
    ensures r <= prefix
    ensures r == prefix || AGENT_SEGMENT <= prefix[|r|..]
    ensures forall i :: 0 <= i < |r| ==> !(AGENT_SEGMENT <= prefix[i..])
  {
    if prefix == "" || AGENT_SEGMENT <= prefix then ""
    else
      var rest := RootOf(prefix[1..]);
      var r := [prefix[0]] + rest;
      assert forall i :: 1 <= i <= |r| ==> prefix[i..] == prefix[1..][i - 1..];
      r
  }

  function KeyOf(prefix: string): Key {
    Key(prefix, RootOf(prefix))
  }

  /** A transferred row has its trial, under its key and with its origin; keys are unique. */
  ghost predicate Inv(t: Tables) {
    && (forall a, b :: a in t.trials && b in t.trials && t.trials[a].key.Some? && t.trials[a].key == t.trials[b].key
          ==> a == b)
    && (forall p :: p in t.ledger && t.ledger[p].status.Transferred? ==>
          && t.ledger[p].trial.Some? && t.ledger[p].trial.value in t.trials
          && t.trials[t.ledger[p].trial.value] == Trial(Some(KeyOf(p)), Some(p)))
  }

  /** What a transaction on the rows `mine` may do to everyone else. */
  ghost predicate Effect(mine: set<string>, before: Tables, after: Tables) {
    && Inv(after) && after.ledger.Keys == before.ledger.Keys
    && (forall p :: p in before.ledger && p !in mine ==> after.ledger[p] == before.ledger[p])
    && (forall p :: p in before.ledger && before.ledger[p].status.Transferred? ==> after.ledger[p] == before.ledger[p])
    && (forall a :: a in before.trials ==> a in after.trials && after.trials[a].key == before.trials[a].key)
  }

  lemma EffectTrans(mine: set<string>, a: Tables, b: Tables, c: Tables)
    requires Effect(mine, a, b) && Effect(mine, b, c)
    ensures Effect(mine, a, c)
  {
  }

  lemma EffectJoin(small: set<string>, large: set<string>, a: Tables, b: Tables, c: Tables)
    requires Effect(large, a, b) && Effect(small, b, c) && small <= large
    ensures Effect(large, a, c)
  {
  }

  /** The invariant holds, no row comes or goes, and a transferred row never changes again. */
  ghost predicate Kept(a: Tables, b: Tables) {
    && Inv(b) && b.ledger.Keys == a.ledger.Keys
    && forall q :: q in a.ledger && a.ledger[q].status.Transferred? ==> b.ledger[q] == a.ledger[q]
  }

  lemma KeptTrans(a: Tables, b: Tables, c: Tables)
    requires Kept(a, b) && Kept(b, c)
    ensures Kept(a, c)
  {
  }

  lemma KeptOn(may: set<string>, a: Tables, b: Tables, c: Tables)
    requires Kept(a, b) && Effect(may, b, c)
    ensures Kept(a, c)
  {
  }

  lemma TrialsStay(p: string, a: Tables, b: Tables)
    requires forall id :: id in a.trials ==> id in b.trials && b.trials[id].key == a.trials[id].key
    ensures (exists id :: id in a.trials && a.trials[id].key == Some(KeyOf(p))) ==>
      exists id :: id in b.trials && b.trials[id].key == Some(KeyOf(p))
  {
    if id :| id in a.trials && a.trials[id].key == Some(KeyOf(p)) {
      assert id in b.trials;
    }
  }

  /** The first `k` rows of a group are concluded, the others as they were. */
  ghost predicate Processed(rows: seq<string>, k: nat, a: Tables, b: Tables, reliable: bool) {
    && (forall i :: 0 <= i < |rows| ==> rows[i] in a.ledger && rows[i] in b.ledger)
    && (forall i :: 0 <= i < k && i < |rows| ==> !b.ledger[rows[i]].status.Discovered?)
    && (reliable ==> forall i :: 0 <= i < k && i < |rows| ==> b.ledger[rows[i]].status.Transferred?)
    && (forall i :: k <= i < |rows| ==> b.ledger[rows[i]] == a.ledger[rows[i]])
  }

  lemma NextProcessed(rows: seq<string>, k: nat, mine: set<string>, a: Tables, b: Tables, c: Tables, reliable: bool)
    requires k < |rows| && Processed(rows, k, a, b, reliable) && Effect(b.ledger.Keys - mine + {rows[k]}, b, c)
    requires (forall i, j :: 0 <= i < j < |rows| ==> rows[i] != rows[j]) && forall i :: 0 <= i < |rows| ==> rows[i] in mine
    requires rows[k] in c.ledger && !c.ledger[rows[k]].status.Discovered?
    requires reliable ==> c.ledger[rows[k]].status.Transferred?
    ensures Processed(rows, k + 1, a, c, reliable)
  {
    forall i | 0 <= i < |rows| && i != k ensures c.ledger[rows[i]] == b.ledger[rows[i]] {
      assert rows[i] in mine && rows[i] != rows[k];
    }
  }

  /** The first `k` rows of the group are failed, the others as open as they were; no other row changed. */
  ghost predicate FailedTo(rows: seq<string>, k: nat, a: Tables, b: Tables) {
    && Effect(Elements(rows), a, b)
    && (forall i :: 0 <= i < |rows| ==> rows[i] in b.ledger && !b.ledger[rows[i]].status.Transferred?)
    && forall i :: 0 <= i < k && i < |rows| ==> b.ledger[rows[i]].status.Failed?
  }

  lemma FailedNext(rows: seq<string>, k: nat, a: Tables, b: Tables, c: Tables)
    requires k < |rows| && FailedTo(rows, k, a, b) && Effect({rows[k]}, b, c) && c.ledger[rows[k]].status.Failed?
    ensures FailedTo(rows, k + 1, a, c)
  {
    EffectJoin({rows[k]}, Elements(rows), a, b, c);
  }

  /** Under the invariant a prefix has at most one trial, and a transferred row's trial is it. */
  lemma ExactlyOnce(t: Tables, p: string, a: nat, b: nat)
    requires Inv(t) && a in t.trials && b in t.trials
    requires t.trials[a].key == Some(KeyOf(p)) && t.trials[b].key == Some(KeyOf(p))
    ensures a == b
    ensures p in t.ledger && t.ledger[p].status.Transferred? ==> t.ledger[p].trial == Some(a) && t.trials[a].origin == Some(p)
  {
  }

  datatype ImportResult = Created(id: nat) | Conflict | Raised

  class Migration {
    var t: Tables

    constructor (ledger: map<string, Entry>, trials: map<nat, Trial>)
      requires Inv(Tables(ledger, trials))
      ensures t == Tables(ledger, trials)
    {
      t := Tables(ledger, trials);
    }

    /**
      The importer: it commits a trial under the row's key, or raises.  It may raise after its
      commit, and a uniqueness error need not come from this key.  A `reliable` call raises
      only on a real key conflict.
     */
    method Import(p: string, reliable: bool) returns (r: ImportResult)
      requires Inv(t)
      modifies this
      ensures Effect({}, old(t), t) && t.ledger == old(t).ledger
      ensures r.Created? ==> r.id in t.trials && t.trials[r.id].key == Some(KeyOf(p))
      ensures reliable ==> !r.Raised?
      ensures reliable && r.Conflict? ==> HasTrial(p)
    {
      var taken := false;
      if id :| id in t.trials && t.trials[id].key == Some(KeyOf(p)) {
        taken := true;
      }
      if taken {
        if reliable {
          return Conflict;
        }
        if * {
          return Conflict;
        }
        return Raised;
      }
      if !reliable {
        if * {
          return Raised;
        } else if * {
          return Conflict;
        }
      }
      var next := FreshId();
      t := t.(trials := t.trials[next := Trial(Some(KeyOf(p)), None)]);
      if !reliable {
        if * {
          return Raised;
        }
      }
      return Created(next);
    }

    ghost predicate HasTrial(p: string)
      reads this
    {
      exists id :: id in t.trials && t.trials[id].key == Some(KeyOf(p))
    }

    method FreshId() returns (id: nat)
      ensures id !in t.trials
    {
      id := 0;
      var rest := t.trials.Keys;
      while id in t.trials
        invariant rest <= t.trials.Keys && forall x :: x in t.trials && x >= id ==> x in rest
        decreases |rest|
      {
        rest := rest - {id};
        id := id + 1;
      }
    }

    method FindByKey(p: string) returns (r: Option<nat>)
      ensures r.Some? ==> r.value in t.trials && t.trials[r.value].key == Some(KeyOf(p))
      ensures r.None? ==> !HasTrial(p)
    {
      if id :| id in t.trials && t.trials[id].key == Some(KeyOf(p)) {
        return Some(id);
      }
      return None;
    }

    /** One transaction: the trial gets its origin and the row is marked transferred. */
    method Patch(p: string, id: nat)
      requires Inv(t) && p in t.ledger && id in t.trials && t.trials[id].key == Some(KeyOf(p))
      modifies this
      ensures Effect({p}, old(t), t)
      ensures t.ledger[p].status.Transferred?
    {
      t := Tables(t.ledger[p := Entry(Transferred, Some(id))], t.trials[id := t.trials[id].(origin := Some(p))]);
    }

    method MarkFailed(p: string)
      requires Inv(t) && p in t.ledger && !t.ledger[p].status.Transferred?
      modifies this
      ensures Effect({p}, old(t), t)
      ensures t.ledger[p].status.Failed?
    {
      t := t.(ledger := t.ledger[p := t.ledger[p].(status := Failed)]);
    }

    /** What other groups do meanwhile: any of the transactions above, on rows that are not `mine`. */
    method OthersRun(mine: set<string>)
      requires Inv(t)
      modifies this
      ensures Effect(t.ledger.Keys - mine, old(t), t)
    {
      var steps: int :| 0 <= steps;
      for i := 0 to steps
        invariant Effect(t.ledger.Keys - mine, old(t), t)
      {
        ghost var before := t;
        if p :| p in t.ledger && p !in mine {
          if * {
            var r := Import(p, false);
          } else if * {
            var id := FindByKey(p);
            if id.Some? {
              Patch(p, id.value);
            }
          } else if !t.ledger[p].status.Transferred? {
            MarkFailed(p);
          }
        }
        EffectTrans(t.ledger.Keys - mine, old(t), before, t);
      }
    }

    /** Import one row and record the outcome; `crashed` when the process stopped at some await. */
    method ProcessRow(p: string, mine: set<string>, reliable: bool) returns (crashed: bool)
      requires Inv(t) && p in mine && mine <= t.ledger.Keys && !t.ledger[p].status.Transferred?
      modifies this
      ensures Effect(t.ledger.Keys - mine + {p}, old(t), t)
      ensures if crashed then t.ledger[p] == old(t).ledger[p] else !t.ledger[p].status.Discovered?
      ensures reliable ==> !crashed && t.ledger[p].status.Transferred?
    {
      ghost var before, may := t, t.ledger.Keys - mine + {p};
      OthersRun(mine);
      ghost var waited := t;
      var r := Import(p, reliable);
      EffectJoin({}, may, before, waited, t);
      var dies: bool := *;
      if !reliable && dies {
        return true;                        // after the importer's commit, before the patch
      }
      ghost var imported := t;
      crashed := Conclude(p, mine, r, reliable);
      EffectJoin(may, may, before, imported, t);
    }

    /** After the importer: find the trial on a conflict, and patch or fail the row. */
    method Conclude(p: string, mine: set<string>, r: ImportResult, reliable: bool) returns (crashed: bool)
      requires Inv(t) && p in mine && mine <= t.ledger.Keys && !t.ledger[p].status.Transferred?
      requires r.Created? ==> r.id in t.trials && t.trials[r.id].key == Some(KeyOf(p))
      requires reliable ==> !r.Raised? && (r.Conflict? ==> HasTrial(p))
      modifies this
      ensures Effect(t.ledger.Keys - mine + {p}, old(t), t)
      ensures if crashed then t.ledger[p] == old(t).ledger[p] else !t.ledger[p].status.Discovered?
      ensures reliable ==> !crashed && t.ledger[p].status.Transferred?
    {
      ghost var before, may := t, t.ledger.Keys - mine + {p};
      var trial: Option<nat> := if r.Created? then Some(r.id) else None;
      OthersRun(mine);
      ghost var waited := t;
      if r.Raised? {
        MarkFailed(p);
        EffectJoin({p}, may, before, waited, t);
        return false;
      }
      if r.Conflict? {
        TrialsStay(p, before, t);
        trial := FindByKey(p);
        OthersRun(mine);
        EffectJoin(may - {p}, may, before, waited, t);
      }
      var dies: bool := *;
      if !reliable && dies {
        return true;
      }
      ghost var found := t;
      if trial.Some? {
        Patch(p, trial.value);
      } else {
        MarkFailed(p);
      }
      EffectJoin({p}, may, before, found, t);
      return false;
    }

    /** One transaction: a setup that failed fails every row of its group. */
    method FailGroup(rows: seq<string>)
      requires Inv(t) && forall i :: 0 <= i < |rows| ==> rows[i] in t.ledger && !t.ledger[rows[i]].status.Transferred?
      modifies this
      ensures FailedTo(rows, |rows|, old(t), t)
    {
      ghost var before := t;
      for k := 0 to |rows|
        invariant FailedTo(rows, k, before, t)
      {
        ghost var here := t;
        MarkFailed(rows[k]);
        FailedNext(rows, k, before, here, t);
      }
    }

    /** A setup that raised: the process may die before the rows are marked failed, and after. */
    method SetupFails(rows: seq<string>) returns (crashed: bool)
      requires Inv(t) && forall i :: 0 <= i < |rows| ==> rows[i] in t.ledger && !t.ledger[rows[i]].status.Transferred?
      modifies this
      ensures FailedTo(rows, |rows|, old(t), t) || (crashed && t == old(t))
    {
      crashed := *;
      if crashed {
        return;
      }
      FailGroup(rows);
      crashed := *;
    }

    /** One task group: its rows in order, after a setup that may fail and fail them all. */
    method ProcessGroup(rows: seq<string>, reliable: bool) returns (crashed: bool)
      requires Inv(t) && forall i :: 0 <= i < |rows| ==> rows[i] in t.ledger && !t.ledger[rows[i]].status.Transferred?
      requires forall i, j :: 0 <= i < j < |rows| ==> rows[i] != rows[j]
      modifies this
      ensures Kept(old(t), t)
      ensures !crashed ==> forall i :: 0 <= i < |rows| ==> !t.ledger[rows[i]].status.Discovered?
      ensures reliable ==> !crashed && forall i :: 0 <= i < |rows| ==> t.ledger[rows[i]].status.Transferred?
    {
      var fails: bool := *;
      if !reliable && fails {
        crashed := SetupFails(rows);
        return;
      }
      var mine := Elements(rows);
      for k := 0 to |rows|
        invariant Kept(old(t), t) && Processed(rows, k, old(t), t, reliable)
      {
        ghost var here := t;
        var stop := ProcessRow(rows[k], mine, reliable);
        KeptOn(t.ledger.Keys - mine + {rows[k]}, old(t), here, t);
        if stop {
          return true;
        }
        NextProcessed(rows, k, mine, old(t), here, t, reliable);
      }
      return false;
    }

    /** Any number of runs, each over any of the rows its statuses select, each perhaps crashing. */
    method Runs(count: nat)
      requires Inv(t)
      modifies this
      ensures Kept(old(t), t)
    {
      for k := 0 to count
        invariant Kept(old(t), t)
      {
        var retryFailed := *;
        var rows := PendingRows(retryFailed);
        var upTo: int :| 0 <= upTo <= |rows|;
        ghost var here := t;
        var crashed := ProcessGroup(rows[..upTo], false);
        KeptTrans(old(t), here, t);
      }
    }

    /** The work list: discovered rows, and failed ones when retrying. */
    method PendingRows(retryFailed: bool) returns (rows: seq<string>)
      ensures forall p :: p in rows <==>
        p in t.ledger && (t.ledger[p].status.Discovered? || (retryFailed && t.ledger[p].status.Failed?))
      ensures forall i, j :: 0 <= i < j < |rows| ==> rows[i] != rows[j]
    {
      rows := [];
      var rest := set p | p in t.ledger && (t.ledger[p].status.Discovered? || (retryFailed && t.ledger[p].status.Failed?));
      ghost var all := rest;
      while rest != {}
        invariant rest <= all && forall p :: p in rows <==> p in all && p !in rest
        invariant forall i, j :: 0 <= i < j < |rows| ==> rows[i] != rows[j]
      {
        var p :| p in rest;
        rows, rest := rows + [p], rest - {p};
      }
    }

    /** After any history, one retrying run without faults leaves every row transferred. */
    method FaultlessRetry()
      requires Inv(t)
      modifies this
      ensures Inv(t) && t.ledger.Keys == old(t).ledger.Keys
      ensures forall p :: p in t.ledger ==> t.ledger[p].status.Transferred?
    {
      var rows := PendingRows(true);
      var crashed := ProcessGroup(rows, true);
      forall p | p in t.ledger ensures t.ledger[p].status.Transferred? {
        if p in rows {
          var i :| 0 <= i < |rows| && rows[i] == p;
        }
      }
    }
  }
}
