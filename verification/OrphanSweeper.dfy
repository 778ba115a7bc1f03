/**
  The orphan-pod sweeper: the ownership view it resolves from the job table, its verdict on
  each listed pod, and the protocol its list, two reads and deletes run against workers that
  start, link, create pods, finish and retry at the same time.
 */
module OrphanSweeper {
  import opened Common

  // ---------------------------------------------------------------- rows, pods and verdicts

  datatype Status = Running | Queued | Retrying | Succeeded | Failed

  /** The `namespace/pod` an `external_id` holds. */
  datatype Handle = Handle(ns: string, pod: string)

  /** A `worker_jobs` row: `trial` is `kind = 'TRIAL'`, `gke` the environment-or-variant test on its trial. */
  datatype Row = Row(trial: bool, gke: bool, status: Status, handle: Option<Handle>, finishedAt: Option<int>)

  datatype Pod = Pod(name: string, uid: nat, created: Option<int>, sandbox: bool)

  datatype Liveness = Liveness(live: set<string>, dead: set<string>, unlinked: bool)

  datatype Verdict = DeleteOrphan | DeleteDeadOwner | KeepLive | KeepWithinGrace | KeepUnlinkedGuard | KeepNotSandbox
  {
    predicate Deletes() {
      DeleteOrphan? || DeleteDeadOwner?
    }
  }

  function VerdictFor(pod: Pod, view: Liveness, now: int, grace: int): Verdict {
    if !pod.sandbox then KeepNotSandbox
    else if pod.name in view.live then KeepLive
    else if pod.created.None? || now - pod.created.value <= grace then KeepWithinGrace
    else if pod.name in view.dead then DeleteDeadOwner
    else if view.unlinked then KeepUnlinkedGuard
    else DeleteOrphan
  }

  /** The pods the plan condemns, in listing order. */
  function ToDelete(pods: seq<Pod>, view: Liveness, now: int, grace: int): (r: seq<Pod>)
    ensures forall p :: p in r <==> p in pods && VerdictFor(p, view, now, grace).Deletes()
  {
    if pods == [] then []
    else (if VerdictFor(pods[0], view, now, grace).Deletes() then [pods[0]] else [])
         + ToDelete(pods[1..], view, now, grace)
  }

  /** Could a job that finished at this time have created the pod? */
  predicate DeadOwnerOwnsPod(pod: Pod, finishedAt: Option<int>) {
    finishedAt.None? || pod.created.None? || finishedAt.value >= pod.created.value
  }

  // ---------------------------------------------------------------- ownership, declaratively

  predicate Carries(r: Row, ns: string, name: string) {
    r.trial && r.handle == Some(Handle(ns, name))
  }

  ghost predicate LiveOwner(rows: set<Row>, ns: string, p: Pod) {
    exists r :: r in rows && Carries(r, ns, p.name) && r.status.Running?
  }

  ghost predicate DeadOwner(rows: set<Row>, ns: string, p: Pod) {
    exists r :: r in rows && Carries(r, ns, p.name) && !r.status.Running? && DeadOwnerOwnsPod(p, r.finishedAt)
  }

  predicate RunningGke(r: Row) {
    r.trial && r.status.Running? && r.gke
  }

  predicate Listed(pods: seq<Pod>, ns: string, h: Handle) {
    h.ns == ns && exists p :: p in pods && p.name == h.pod
  }

  /** A running GKE trial without a handle, or whose handle names no listed pod. */
  ghost predicate UnlinkedWorker(rows: set<Row>, pods: seq<Pod>, ns: string) {
    exists r :: r in rows && RunningGke(r) && (r.handle.None? || !Listed(pods, ns, r.handle.value))
  }

  /** The view two reads of the job table give, the first seeing `rows1` and the second `rows2`. */
  ghost function View(rows1: set<Row>, rows2: set<Row>, pods: seq<Pod>, ns: string): Liveness {
    Liveness(
      set p | p in pods && LiveOwner(rows1, ns, p) :: p.name,
      set p | p in pods && DeadOwner(rows1, ns, p) && !LiveOwner(rows1, ns, p) :: p.name,
      UnlinkedWorker(rows2, pods, ns))
  }

  /** Kubernetes names are unique at one moment. */
  ghost predicate DistinctNames(pods: seq<Pod>) {
    forall i, j :: 0 <= i < |pods| && 0 <= j < |pods| && pods[i].name == pods[j].name ==> i == j
  }

  function PodByHandle(pods: seq<Pod>, ns: string, h: Option<Handle>): (r: Option<Pod>)
    ensures r.Some? ==> r.value in pods && h == Some(Handle(ns, r.value.name))
    ensures r.None? ==> forall p :: p in pods ==> h != Some(Handle(ns, p.name))
  {
    if pods == [] then None
    else if h == Some(Handle(ns, pods[0].name)) then Some(pods[0])
    else PodByHandle(pods[1..], ns, h)
  }

  lemma SameNameSamePod(pods: seq<Pod>, p: Pod, q: Pod)
    requires DistinctNames(pods) && p in pods && q in pods && p.name == q.name
    ensures p == q
  {
  }

  /**
    Resolve ownership from the rows the two queries return, in any order.  The result depends
    only on which rows there are.
   */
  method ResolveLiveness(rows1: seq<Row>, rows2: seq<Row>, pods: seq<Pod>, ns: string) returns (view: Liveness)
    requires DistinctNames(pods)
    ensures view == View((set r | r in rows1), (set r | r in rows2), pods, ns)
  {
    var live: set<string>, dead: set<string> := {}, {};
    for i := 0 to |rows1|
      invariant forall n :: n in live <==>
        exists p, j :: p in pods && 0 <= j < i && p.name == n && Carries(rows1[j], ns, p.name) && rows1[j].status.Running?
      invariant forall n :: n in dead <==>
        exists p, j :: p in pods && 0 <= j < i && p.name == n && Carries(rows1[j], ns, p.name)
                       && !rows1[j].status.Running? && DeadOwnerOwnsPod(p, rows1[j].finishedAt)
    {
      var r := rows1[i];
      var pod := PodByHandle(pods, ns, r.handle);
      if r.trial && pod.Some? {
        if r.status.Running? {
          live := live + {pod.value.name};
        } else if DeadOwnerOwnsPod(pod.value, r.finishedAt) {
          dead := dead + {pod.value.name};
        }
        forall p | p in pods && p.name == pod.value.name ensures p == pod.value {
          SameNameSamePod(pods, p, pod.value);
        }
      }
    }
    var unlinked := false;
    for i := 0 to |rows2|
      invariant unlinked <==> exists j :: 0 <= j < i && RunningGke(rows2[j])
                                          && (rows2[j].handle.None? || !Listed(pods, ns, rows2[j].handle.value))
    {
      if RunningGke(rows2[i]) {
        unlinked := unlinked || PodByHandle(pods, ns, rows2[i].handle).None?;
      }
    }
    view := Liveness(live, dead - live, unlinked);
    ViewFromLoops(rows1, pods, ns, live, dead);
  }

  lemma ViewFromLoops(rows1: seq<Row>, pods: seq<Pod>, ns: string, live: set<string>, dead: set<string>)
    requires DistinctNames(pods)
    requires forall n :: n in live <==>
      exists p, j :: p in pods && 0 <= j < |rows1| && p.name == n && Carries(rows1[j], ns, p.name) && rows1[j].status.Running?
    requires forall n :: n in dead <==>
      exists p, j :: p in pods && 0 <= j < |rows1| && p.name == n && Carries(rows1[j], ns, p.name)
                     && !rows1[j].status.Running? && DeadOwnerOwnsPod(p, rows1[j].finishedAt)
    ensures var rows := set r | r in rows1;
            && live == (set p | p in pods && LiveOwner(rows, ns, p) :: p.name)
            && dead - live == (set p | p in pods && DeadOwner(rows, ns, p) && !LiveOwner(rows, ns, p) :: p.name)
  {
    var rows := set r | r in rows1;
    forall p | p in pods ensures LiveOwner(rows, ns, p) <==> p.name in live {
      if LiveOwner(rows, ns, p) {
        var r :| r in rows && Carries(r, ns, p.name) && r.status.Running?;
        var j :| 0 <= j < |rows1| && rows1[j] == r;
      }
    }
    forall p | p in pods ensures DeadOwner(rows, ns, p) <==> p.name in dead {
      if DeadOwner(rows, ns, p) {
        var r :| r in rows && Carries(r, ns, p.name) && !r.status.Running? && DeadOwnerOwnsPod(p, r.finishedAt);
        var j :| 0 <= j < |rows1| && rows1[j] == r;
      }
      if p.name in dead {
        var q, j :| q in pods && 0 <= j < |rows1| && q.name == p.name && Carries(rows1[j], ns, q.name)
                    && !rows1[j].status.Running? && DeadOwnerOwnsPod(q, rows1[j].finishedAt);
        SameNameSamePod(pods, p, q);
      }
    }
  }

  // ---------------------------------------------------------------- the guard, over one database state

  /** The ownership view in the rows' own terms: statuses, handles and times. */
  lemma ViewExactly(rows1: set<Row>, rows2: set<Row>, pods: seq<Pod>, ns: string, p: Pod)
    requires DistinctNames(pods) && p in pods
    ensures p.name in View(rows1, rows2, pods, ns).live <==>
      exists r :: r in rows1 && r.trial && r.handle == Some(Handle(ns, p.name)) && r.status == Running
    ensures p.name in View(rows1, rows2, pods, ns).dead <==>
      && (exists r :: r in rows1 && r.trial && r.handle == Some(Handle(ns, p.name)) && r.status != Running
                      && (r.finishedAt == None || p.created == None || p.created.value <= r.finishedAt.value))
      && !(exists r :: r in rows1 && r.trial && r.handle == Some(Handle(ns, p.name)) && r.status == Running)
    ensures View(rows1, rows2, pods, ns).unlinked <==>
      exists r :: r in rows2 && r.trial && r.gke && r.status == Running
                  && forall q :: q in pods ==> r.handle != Some(Handle(ns, q.name))
  {
    forall q | q in pods && q.name == p.name ensures q == p {
      SameNameSamePod(pods, p, q);
    }
    LiveAndDead(rows1, ns, p);
    UnlinkedExactly(rows2, pods, ns);
  }

  lemma LiveAndDead(rows: set<Row>, ns: string, p: Pod)
    ensures LiveOwner(rows, ns, p) <==>
      exists r :: r in rows && r.trial && r.handle == Some(Handle(ns, p.name)) && r.status == Running
    ensures DeadOwner(rows, ns, p) <==>
      exists r :: r in rows && r.trial && r.handle == Some(Handle(ns, p.name)) && r.status != Running
                  && (r.finishedAt == None || p.created == None || p.created.value <= r.finishedAt.value)
  {
    forall r ensures Carries(r, ns, p.name) <==> r.trial && r.handle == Some(Handle(ns, p.name)) {}
  }

  lemma UnlinkedExactly(rows: set<Row>, pods: seq<Pod>, ns: string)
    ensures UnlinkedWorker(rows, pods, ns) <==>
      exists r :: r in rows && r.trial && r.gke && r.status == Running
                  && forall q :: q in pods ==> r.handle != Some(Handle(ns, q.name))
  {
    forall r: Row
      ensures (r.handle.None? || !Listed(pods, ns, r.handle.value)) <==>
        forall q :: q in pods ==> r.handle != Some(Handle(ns, q.name))
    {
      if r.handle.Some? && forall q :: q in pods ==> r.handle != Some(Handle(ns, q.name)) {
        assert r.handle == Some(Handle(r.handle.value.ns, r.handle.value.pod));
      }
    }
  }

  /**
    A row that finished before the pod was created is a stale alias of its name: when all that
    carry the name are, the pod has no dead owner, and an unlinked running GKE trial keeps it.
   */
  lemma StaleAliasOwnsNothing(rows: set<Row>, pods: seq<Pod>, ns: string, p: Pod, now: int, grace: int, j: Row)
    requires DistinctNames(pods) && p in pods && p.created.Some?
    requires forall r :: r in rows && r.trial && r.handle == Some(Handle(ns, p.name)) && r.status != Running ==>
      r.finishedAt.Some? && r.finishedAt.value < p.created.value
    ensures p.name !in View(rows, rows, pods, ns).dead
    ensures j in rows && j.trial && j.gke && j.status == Running && j.handle == None ==>
      !VerdictFor(p, View(rows, rows, pods, ns), now, grace).Deletes()
  {
    ViewExactly(rows, rows, pods, ns, p);
  }

  /** One that has no finish time, or finished no earlier, condemns it once past grace, unless a running row carries the name. */
  lemma DeadOwnerCondemns(rows1: set<Row>, rows2: set<Row>, pods: seq<Pod>, ns: string, p: Pod, now: int, grace: int, r: Row)
    requires DistinctNames(pods) && p in pods && r in rows1
    requires r.trial && r.handle == Some(Handle(ns, p.name)) && r.status != Running
    requires r.finishedAt == None || p.created == None || p.created.value <= r.finishedAt.value
    requires forall q :: q in rows1 && q.trial && q.handle == Some(Handle(ns, p.name)) ==> q.status != Running
    ensures p.name in View(rows1, rows2, pods, ns).dead
    ensures p.sandbox && p.created.Some? && now - p.created.value > grace ==>
      VerdictFor(p, View(rows1, rows2, pods, ns), now, grace) == DeleteDeadOwner
  {
    ViewExactly(rows1, rows2, pods, ns, p);
  }

  /** Exactly when a listed pod is condemned. */
  lemma CondemnedExactlyWhen(rows1: set<Row>, rows2: set<Row>, pods: seq<Pod>, ns: string, p: Pod, now: int, grace: int)
    requires DistinctNames(pods) && p in pods
    ensures VerdictFor(p, View(rows1, rows2, pods, ns), now, grace).Deletes() <==>
      && p.sandbox && p.created.Some? && now - p.created.value > grace
      && !LiveOwner(rows1, ns, p)
      && (DeadOwner(rows1, ns, p) || !UnlinkedWorker(rows2, pods, ns))
  {
    forall q | q in pods && q.name == p.name ensures q == p {
      SameNameSamePod(pods, p, q);
    }
  }

  /**
    With both reads of one state, a running GKE job `j` keeps any listed pod it may own, except
    when its recorded handle names a different listed pod, or a non-running row carries the
    pod's handle and could have created it.
   */
  lemma GuardTheorem(rows: set<Row>, pods: seq<Pod>, ns: string, p: Pod, now: int, grace: int, j: Row)
    requires DistinctNames(pods) && p in pods && j in rows && RunningGke(j)
    requires VerdictFor(p, View(rows, rows, pods, ns), now, grace).Deletes()
    ensures j.handle != Some(Handle(ns, p.name))
    ensures DeadOwner(rows, ns, p)
            || (exists q :: q in pods && q.name != p.name && j.handle == Some(Handle(ns, q.name)))
  {
    CondemnedExactlyWhen(rows, rows, pods, ns, p, now, grace);
    assert Carries(j, ns, p.name) <==> j.handle == Some(Handle(ns, p.name));
    if !DeadOwner(rows, ns, p) {
      assert j.handle.Some? && Listed(pods, ns, j.handle.value);
    }
  }

  /** A retried job still carrying its previous attempt's handle, whose old pod is still listed. */
  lemma StaleHandleWitness(ns: string)
    ensures exists rows, pods, p, j ::
      && DistinctNames(pods) && p in pods && j in rows && RunningGke(j)
      && VerdictFor(p, View(rows, rows, pods, ns), 100, 10).Deletes()
      && !DeadOwner(rows, ns, p)
  {
    var earlier, latest := Pod("a", 1, Some(0), true), Pod("b", 2, Some(50), true);
    var j := Row(true, true, Running, Some(Handle(ns, "a")), None);
    var rows, pods := {j}, [earlier, latest];
    CondemnedExactlyWhen(rows, rows, pods, ns, latest, 100, 10);
    assert Listed(pods, ns, j.handle.value) by {
      assert earlier in pods;
    }
    assert !UnlinkedWorker(rows, pods, ns);
    assert VerdictFor(latest, View(rows, rows, pods, ns), 100, 10).Deletes();
  }

  /** A requeued row keeps the handle of a pod name an unlinked running job now uses. */
  lemma ReusedNameWitness(ns: string)
    ensures exists rows, pods, p, j ::
      && DistinctNames(pods) && p in pods && j in rows && RunningGke(j) && j.handle.None?
      && VerdictFor(p, View(rows, rows, pods, ns), 100, 10).Deletes()
  {
    var p := Pod("a", 1, Some(0), true);
    var j := Row(true, true, Running, None, None);
    var other := Row(true, true, Retrying, Some(Handle(ns, "a")), None);
    var rows, pods := {j, other}, [p];
    CondemnedExactlyWhen(rows, rows, pods, ns, p, 100, 10);
    assert Carries(other, ns, "a") && DeadOwnerOwnsPod(p, other.finishedAt);
    assert DeadOwner(rows, ns, p);
    assert VerdictFor(p, View(rows, rows, pods, ns), 100, 10).Deletes();
  }

  // ---------------------------------------------------------------- the protocol

  datatype Attempt = Attempt(job: nat, number: nat)

  /** A job row with its current attempt, and whether that attempt has recorded its handle. */
  datatype Job = Job(row: Row, attempt: nat, linked: bool)

  datatype OwnedPod = OwnedPod(pod: Pod, owner: Option<Attempt>)

  /** Where a sweep stands: what it listed, and what it read so far. */
  datatype Sweep =
    | Idle
    | AfterList(pods: seq<Pod>, now: int)
    | AfterFirstRead(pods: seq<Pod>, now: int, rows1: set<Row>)
    | Deleting(todo: seq<Pod>)

  datatype State = State(jobs: map<nat, Job>, cluster: map<nat, OwnedPod>, nextUid: nat, sweep: Sweep)

  datatype Label =
    | Enqueue(job: nat, row: Row)
    | Start(job: nat, finishedAt: Option<int>)
    | Link(job: nat, name: string)
    | Create(job: nat, created: Option<int>)
    | Leave(job: nat, status: Status, handle: Option<Handle>, finishedAt: Option<int>)
    | Foreign(pod: Pod)
    | Vanish(uid: nat)
    | SweepList(pods: seq<Pod>, now: int)
    | SweepRead1
    | SweepRead2
    | SweepDelete(works: bool)
    | SweepEnd

  function Rows(s: State): set<Row> {
    set j | j in s.jobs :: s.jobs[j].row
  }

  predicate NameFree(s: State, name: string) {
    forall u :: u in s.cluster ==> s.cluster[u].pod.name != name
  }

  predicate IsRunning(s: State, j: nat) {
    j in s.jobs && s.jobs[j].row.status.Running?
  }

  /** The delete of one pod: its UID is a precondition, so a pod of the same name created later stays. */
  function AfterDelete(cluster: map<nat, OwnedPod>, p: Pod): map<nat, OwnedPod> {
    if p.uid in cluster && cluster[p.uid].pod.name == p.name then cluster - {p.uid} else cluster
  }

  /** What one step does; `late` drops the rule that a handle is recorded before its pod exists. */
  ghost predicate Step(s: State, l: Label, s': State, ns: string, grace: int, late: bool) {
    match l
    case Enqueue(j, row) =>
      j !in s.jobs && !row.status.Running? && s' == s.(jobs := s.jobs[j := Job(row, 0, false)])
    case Start(j, finishedAt) =>
      // A new attempt; the row may still carry the handle of the one before.
      && j in s.jobs && !IsRunning(s, j)
      && s' == s.(jobs := s.jobs[j := Job(s.jobs[j].row.(status := Running, finishedAt := finishedAt),
                                          s.jobs[j].attempt + 1, false)])
    case Link(j, name) =>
      && IsRunning(s, j) && !s.jobs[j].linked
      && s' == s.(jobs := s.jobs[j := s.jobs[j].(linked := true,
                                                 row := s.jobs[j].row.(handle := Some(Handle(ns, name))))])
    case Create(j, created) =>
      && IsRunning(s, j) && s.jobs[j].row.trial
      && (if late then
            exists name :: NameFree(s, name) && s' == AddPod(s, Pod(name, s.nextUid, created, true),
                                                             Some(Attempt(j, s.jobs[j].attempt)))
          else
            && s.jobs[j].linked && s.jobs[j].row.handle.Some? && NameFree(s, s.jobs[j].row.handle.value.pod)
            && s' == AddPod(s, Pod(s.jobs[j].row.handle.value.pod, s.nextUid, created, true),
                            Some(Attempt(j, s.jobs[j].attempt))))
    case Leave(j, status, handle, finishedAt) =>
      // Finished, cancelled, or reaped to be retried.
      && IsRunning(s, j) && !status.Running?
      && s' == s.(jobs := s.jobs[j := s.jobs[j].(row := s.jobs[j].row.(status := status, handle := handle,
                                                                       finishedAt := finishedAt))])
    case Foreign(pod) => NameFree(s, pod.name) && pod.uid == s.nextUid && s' == AddPod(s, pod, None)
    case Vanish(u) => s' == s.(cluster := s.cluster - {u})
    case SweepList(pods, now) =>
      && s.sweep.Idle? && DistinctNames(pods)
      && (forall p :: p in pods <==> p.sandbox && p.uid in s.cluster && s.cluster[p.uid].pod == p)
      && s' == s.(sweep := AfterList(pods, now))
    case SweepRead1 =>
      s.sweep.AfterList? && s' == s.(sweep := AfterFirstRead(s.sweep.pods, s.sweep.now, Rows(s)))
    case SweepRead2 =>
      && s.sweep.AfterFirstRead?
      && s' == s.(sweep := Deleting(ToDelete(
           s.sweep.pods, View(s.sweep.rows1, Rows(s), s.sweep.pods, ns), s.sweep.now, grace)))
    case SweepDelete(works) =>
      && s.sweep.Deleting? && s.sweep.todo != []
      && s' == s.(sweep := Deleting(s.sweep.todo[1..]),
                  cluster := if works then AfterDelete(s.cluster, s.sweep.todo[0]) else s.cluster)
    case SweepEnd =>
      s.sweep.Deleting? && s.sweep.todo == [] && s' == s.(sweep := Idle)
  }

  function AddPod(s: State, pod: Pod, owner: Option<Attempt>): State {
    s.(cluster := s.cluster[s.nextUid := OwnedPod(pod, owner)], nextUid := s.nextUid + 1)
  }

  const INITIAL := State(map[], map[], 0, Idle)

  /** A run, of any length and any interleaving. */
  ghost predicate IsRun(run: seq<State>, labels: seq<Label>, ns: string, grace: int, late: bool) {
    && |run| == |labels| + 1 && run[0] == INITIAL
    && forall i :: 0 <= i < |labels| ==> Step(run[i], labels[i], run[i + 1], ns, grace, late)
  }

  /** The pod's owning attempt is the job's current one, and is RUNNING. */
  ghost predicate OwnerRunning(s: State, u: nat) {
    && u in s.cluster && s.cluster[u].owner.Some?
    && var a := s.cluster[u].owner.value;
       IsRunning(s, a.job) && s.jobs[a.job].attempt == a.number
  }

  ghost predicate Inv(s: State, ns: string) {
    && (forall u :: u in s.cluster ==> s.cluster[u].pod.uid == u && u < s.nextUid)
    && (forall u :: u in s.cluster && s.cluster[u].owner.Some? ==>
          var a := s.cluster[u].owner.value;
          a.job in s.jobs && a.number <= s.jobs[a.job].attempt)
    && (forall u: nat :: OwnerRunning(s, u) ==>
          Carries(s.jobs[s.cluster[u].owner.value.job].row, ns, s.cluster[u].pod.name)
          && s.jobs[s.cluster[u].owner.value.job].linked)
    && (forall j :: j in s.jobs && s.jobs[j].linked && s.jobs[j].row.status.Running? ==>
          s.jobs[j].row.handle.Some? && s.jobs[j].row.handle.value.ns == ns)
    && SweepInv(s, ns)
  }

  /** What the sweep remembers is still true of every pod it listed that is still there. */
  ghost predicate SweepInv(s: State, ns: string) {
    match s.sweep
    case Idle => true
    case AfterList(pods, _) => DistinctNames(pods) && Remembered(s, pods)
    case AfterFirstRead(pods, _, rows1) =>
      && DistinctNames(pods) && Remembered(s, pods)
      && forall p :: p in pods && OwnerRunning(s, p.uid) ==> LiveOwner(rows1, ns, p)
    case Deleting(todo) =>
      Remembered(s, todo) && forall p :: p in todo ==> !OwnerRunning(s, p.uid)
  }

  ghost predicate Remembered(s: State, pods: seq<Pod>) {
    forall p :: p in pods ==> p.uid < s.nextUid && (p.uid in s.cluster ==> s.cluster[p.uid].pod == p)
  }

  /** A step that is not a worker's leaves no new pod with a running owner; a worker's creates it with a fresh UID. */
  lemma OwnerRunningBefore(s: State, l: Label, s': State, ns: string, grace: int, u: nat)
    requires Inv(s, ns) && Step(s, l, s', ns, grace, false) && u < s.nextUid
    requires OwnerRunning(s', u)
    ensures OwnerRunning(s, u) && s'.cluster[u] == s.cluster[u]
  {
  }

  lemma StepKeepsUids(s: State, l: Label, s': State, ns: string, grace: int)
    requires Inv(s, ns) && Step(s, l, s', ns, grace, false)
    ensures forall u :: u in s'.cluster ==> s'.cluster[u].pod.uid == u && u < s'.nextUid
  {
  }

  lemma StepKeepsOwners(s: State, l: Label, s': State, ns: string, grace: int)
    requires Inv(s, ns) && Step(s, l, s', ns, grace, false)
    ensures forall u :: u in s'.cluster && s'.cluster[u].owner.Some? ==>
      s'.cluster[u].owner.value.job in s'.jobs
      && s'.cluster[u].owner.value.number <= s'.jobs[s'.cluster[u].owner.value.job].attempt
  {
    AttemptsStay(s, l, s', ns, grace);
    forall u | u in s'.cluster && s'.cluster[u].owner.Some? ensures OwnedBefore(s, s'.cluster[u].owner.value) {
      OwnerKnown(s, l, s', ns, grace, u);
    }
  }

  predicate OwnedBefore(s: State, a: Attempt) {
    a.job in s.jobs && a.number <= s.jobs[a.job].attempt
  }

  lemma AttemptsStay(s: State, l: Label, s': State, ns: string, grace: int)
    requires Step(s, l, s', ns, grace, false)
    ensures forall j :: j in s.jobs ==> j in s'.jobs && s.jobs[j].attempt <= s'.jobs[j].attempt
  {
  }

  lemma OwnerKnown(s: State, l: Label, s': State, ns: string, grace: int, u: nat)
    requires Inv(s, ns) && Step(s, l, s', ns, grace, false) && u in s'.cluster && s'.cluster[u].owner.Some?
    ensures OwnedBefore(s, s'.cluster[u].owner.value)
  {
  }

  lemma StepKeepsHandles(s: State, l: Label, s': State, ns: string, grace: int)
    requires Inv(s, ns) && Step(s, l, s', ns, grace, false)
    ensures forall j :: j in s'.jobs && s'.jobs[j].linked && s'.jobs[j].row.status.Running? ==>
      s'.jobs[j].row.handle.Some? && s'.jobs[j].row.handle.value.ns == ns
  {
  }

  lemma StepKeepsLinks(s: State, l: Label, s': State, ns: string, grace: int)
    requires Inv(s, ns) && Step(s, l, s', ns, grace, false)
    ensures forall u: nat :: OwnerRunning(s', u) ==>
      Carries(s'.jobs[s'.cluster[u].owner.value.job].row, ns, s'.cluster[u].pod.name)
      && s'.jobs[s'.cluster[u].owner.value.job].linked
  {
    forall u: nat | OwnerRunning(s', u)
      ensures Carries(s'.jobs[s'.cluster[u].owner.value.job].row, ns, s'.cluster[u].pod.name)
              && s'.jobs[s'.cluster[u].owner.value.job].linked
    {
      if u < s.nextUid {
        OwnerRunningBefore(s, l, s', ns, grace, u);
      }
    }
  }

  /** Listed pods stay as listed while they exist (UIDs are never reused), and none regains a running owner. */
  lemma ListedPodsStay(s: State, l: Label, s': State, ns: string, grace: int, pods: seq<Pod>)
    requires Inv(s, ns) && Step(s, l, s', ns, grace, false) && Remembered(s, pods)
    ensures Remembered(s', pods)
    ensures forall p :: p in pods && OwnerRunning(s', p.uid) ==> OwnerRunning(s, p.uid)
  {
    forall p | p in pods && OwnerRunning(s', p.uid) ensures OwnerRunning(s, p.uid) {
      OwnerRunningBefore(s, l, s', ns, grace, p.uid);
    }
  }

  lemma FirstReadSeesOwners(s: State, pods: seq<Pod>, ns: string)
    requires Inv(s, ns) && Remembered(s, pods)
    ensures forall p :: p in pods && OwnerRunning(s, p.uid) ==> LiveOwner(Rows(s), ns, p)
  {
    forall p | p in pods && OwnerRunning(s, p.uid) ensures LiveOwner(Rows(s), ns, p) {
      assert s.jobs[s.cluster[p.uid].owner.value.job].row in Rows(s);
    }
  }

  lemma PlanSparesOwners(s: State, ns: string, grace: int, todo: seq<Pod>)
    requires Inv(s, ns) && s.sweep.AfterFirstRead?
    requires todo == ToDelete(s.sweep.pods, View(s.sweep.rows1, Rows(s), s.sweep.pods, ns), s.sweep.now, grace)
    ensures Remembered(s, todo) && forall p :: p in todo ==> !OwnerRunning(s, p.uid)
  {
    forall p | p in todo ensures !OwnerRunning(s, p.uid) {
      CondemnedExactlyWhen(s.sweep.rows1, Rows(s), s.sweep.pods, ns, p, s.sweep.now, grace);
    }
  }

  lemma StepKeepsSweep(s: State, l: Label, s': State, ns: string, grace: int)
    requires Inv(s, ns) && Step(s, l, s', ns, grace, false)
    ensures SweepInv(s', ns)
  {
    match s.sweep
    case Idle =>
    case AfterList(pods, _) =>
      ListedPodsStay(s, l, s', ns, grace, pods);
      FirstReadSeesOwners(s, pods, ns);
    case AfterFirstRead(pods, _, _) =>
      ListedPodsStay(s, l, s', ns, grace, pods);
      if l.SweepRead2? {
        PlanSparesOwners(s, ns, grace, s'.sweep.todo);
        ListedPodsStay(s, l, s', ns, grace, s'.sweep.todo);
      }
    case Deleting(todo) =>
      ListedPodsStay(s, l, s', ns, grace, todo);
  }

  lemma {:induction false} RunKeepsInv(run: seq<State>, labels: seq<Label>, ns: string, grace: int, i: nat)
    requires IsRun(run, labels, ns, grace, false) && i < |run|
    ensures Inv(run[i], ns)
  {
    if i > 0 {
      RunKeepsInv(run, labels, ns, grace, i - 1);
      assert Step(run[i - 1], labels[i - 1], run[i - 1 + 1], ns, grace, false);
      StepKeepsUids(run[i - 1], labels[i - 1], run[i], ns, grace);
      StepKeepsOwners(run[i - 1], labels[i - 1], run[i], ns, grace);
      StepKeepsHandles(run[i - 1], labels[i - 1], run[i], ns, grace);
      StepKeepsLinks(run[i - 1], labels[i - 1], run[i], ns, grace);
      StepKeepsSweep(run[i - 1], labels[i - 1], run[i], ns, grace);
    }
  }

  /** Step `i` is a delete of the sweep that removes a pod while its owning attempt is RUNNING. */
  ghost predicate KillsRunningPod(run: seq<State>, labels: seq<Label>, i: nat, u: nat) {
    && i < |labels| && i + 1 < |run| && labels[i].SweepDelete?
    && u in run[i].cluster && u !in run[i + 1].cluster && OwnerRunning(run[i], u)
  }

  /**
    In every interleaving, no delete of the sweep removes a pod whose owning attempt is RUNNING
    at that moment, given that a handle is recorded before its pod exists.
   */
  lemma SweepSparesRunningPods(run: seq<State>, labels: seq<Label>, ns: string, grace: int, i: nat, u: nat)
    requires IsRun(run, labels, ns, grace, false)
    ensures !KillsRunningPod(run, labels, i, u)
  {
    if i < |labels| && labels[i].SweepDelete? {
      RunKeepsInv(run, labels, ns, grace, i);
      assert Step(run[i], labels[i], run[i + 1], ns, grace, false);
      assert run[i].sweep.todo[0] in run[i].sweep.todo;
    }
  }

  // ---------------------------------------------------------------- why the order is needed

  const UNLINKED := Row(true, true, Running, None, None)

  const LATE_POD := Pod("a", 0, Some(0), true)

  function LateState(jobRow: Row, number: nat, linked: bool, pods: map<nat, OwnedPod>, next: nat, sweep: Sweep): State {
    State(map[0 := Job(jobRow, number, linked)], pods, next, sweep)
  }

  const LATE_OWNED: map<nat, OwnedPod> := map[0 := OwnedPod(LATE_POD, Some(Attempt(0, 1)))]

  lemma LateRows(jobRow: Row, number: nat, linked: bool, pods: map<nat, OwnedPod>, next: nat, sweep: Sweep)
    ensures Rows(LateState(jobRow, number, linked, pods, next, sweep)) == {jobRow}
  {
    var s := LateState(jobRow, number, linked, pods, next, sweep);
    assert 0 in s.jobs;
  }

  lemma LatePlan(linkedRow: Row, ns: string)
    requires linkedRow == UNLINKED.(handle := Some(Handle(ns, "a")))
    ensures ToDelete([LATE_POD], View({UNLINKED}, {linkedRow}, [LATE_POD], ns), 100, 10) == [LATE_POD]
  {
    var pods := [LATE_POD];
    assert LATE_POD in pods && pods[1..] == [];
    assert Listed(pods, ns, Handle(ns, "a"));
    CondemnedExactlyWhen({UNLINKED}, {linkedRow}, pods, ns, LATE_POD, 100, 10);
  }

  lemma LateCreate(before: State, ns: string)
    requires before == LateState(UNLINKED, 1, false, map[], 0, Idle)
    ensures Step(before, Create(0, Some(0)), LateState(UNLINKED, 1, false, LATE_OWNED, 1, Idle), ns, 10, true)
  {
    assert NameFree(before, "a")
      && LateState(UNLINKED, 1, false, LATE_OWNED, 1, Idle)
         == AddPod(before, Pod("a", 0, Some(0), true), Some(Attempt(0, 1)));
  }

  function LateLabels(): seq<Label> {
    [Enqueue(0, UNLINKED.(status := Queued)), Start(0, None), Create(0, Some(0)), SweepList([LATE_POD], 100),
     SweepRead1, Link(0, "a"), SweepRead2, SweepDelete(true)]
  }

  function Linked(ns: string): Row {
    UNLINKED.(handle := Some(Handle(ns, "a")))
  }

  function LateRun(ns: string): seq<State> {
    [INITIAL,
     LateState(UNLINKED.(status := Queued), 0, false, map[], 0, Idle),
     LateState(UNLINKED, 1, false, map[], 0, Idle),
     LateState(UNLINKED, 1, false, LATE_OWNED, 1, Idle),
     LateState(UNLINKED, 1, false, LATE_OWNED, 1, AfterList([LATE_POD], 100)),
     LateState(UNLINKED, 1, false, LATE_OWNED, 1, AfterFirstRead([LATE_POD], 100, {UNLINKED})),
     LateState(Linked(ns), 1, true, LATE_OWNED, 1, AfterFirstRead([LATE_POD], 100, {UNLINKED})),
     LateState(Linked(ns), 1, true, LATE_OWNED, 1, Deleting([LATE_POD])),
     LateState(Linked(ns), 1, true, map[], 1, Deleting([]))]
  }

  lemma LateStart(ns: string)
    ensures var run, labels := LateRun(ns), LateLabels();
      forall i :: 0 <= i < 3 ==> Step(run[i], labels[i], run[i + 1], ns, 10, true)
  {
    LateCreate(LateRun(ns)[2], ns);
  }

  lemma LateReads(ns: string)
    ensures var run, labels := LateRun(ns), LateLabels();
      forall i :: 3 <= i < 6 ==> Step(run[i], labels[i], run[i + 1], ns, 10, true)
  {
    LateRows(UNLINKED, 1, false, LATE_OWNED, 1, AfterList([LATE_POD], 100));
    assert LATE_POD in [LATE_POD];
  }

  lemma LateDelete(ns: string)
    ensures var run, labels := LateRun(ns), LateLabels();
      forall i :: 6 <= i < 8 ==> Step(run[i], labels[i], run[i + 1], ns, 10, true)
  {
    LateRows(Linked(ns), 1, true, LATE_OWNED, 1, AfterFirstRead([LATE_POD], 100, {UNLINKED}));
    LatePlan(Linked(ns), ns);
    assert [LATE_POD][1..] == [] && LATE_OWNED - {0} == map[];
  }

  /**
    Were the handle recorded only after the pod exists, a pod could lose its running owner's
    protection: the link lands between the two reads, so the first misses it and the second
    sees a linked worker.
   */
  lemma HandleOrderIsNeeded(ns: string)
    ensures exists run, labels, i, u :: IsRun(run, labels, ns, 10, true) && KillsRunningPod(run, labels, i, u)
  {
    LateStart(ns);
    LateReads(ns);
    LateDelete(ns);
    assert IsRun(LateRun(ns), LateLabels(), ns, 10, true);
    assert KillsRunningPod(LateRun(ns), LateLabels(), 7, 0);
  }
}
