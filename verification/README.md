# Verification of the repository's protocols, allocators and analyses

A Dafny project that models the parts of the repository that make strong promises, one module a
file, and proves those promises. The modules share only `Common.dfy`: an option type, sizes of
finite sets, Python's `strip` and `lower` on ASCII, and `sorted` on lists without duplicates.

| module | what it models |
|---|---|
| `OrphanSweeper` | the sweeper of orphaned sandbox pods: the ownership view, the verdicts, and the protocol against concurrent workers as a step system |
| `BuilderCode` | the builder code that the `load_only` guard reads, as a syntax tree with its binding sites |
| `BuilderRuns` | what that code can read: an evaluator over all runs, and a set-valued typing that is exact for it |
| `LoadOnlyGuard` | the static guard on `load_only` columns: type inference to a fixpoint, the call closure and the read set, measured against those runs |
| `SqlScope` | the scope rules of the SQL validator, against a declarative scoping specification |
| `SlackOutbox` | spend milestones, the dedup of failure DMs, and the at-least-once alert outbox with crashes |
| `WorkerLease` | slots, launch reservations and capacity leases over every exit path of a worker and of the dispatcher, and many workers over one capacity store |
| `LegacyDiscover` | scanners, queue and writer of the discovery, with crashes and resumes |
| `LegacyTransfer` | the import ledger with its idempotency keys, with crashes and concurrent groups |
| `EvenFill` | the per-task allocation, the cap mode and the retried submits against a target-based server |
| `PassAtK` | the pass@k product form and what it counts |
| `Delivery` | escaping, splitting and posting an answer in chunks |
| `TopoOrder` | the load order of the preview tables and the load loop |
| `OwnerSweep` | the sweep that gives experiments their owners |
| `Provisioning` | GitHub id claims and organization slugs |

Code that changes state step by step is modelled as methods on classes with the same fields;
code made of expressions is modelled as functions. A call to a service may return, raise, or
raise after taking effect, where the code has a path for that: those choices are nondeterministic
(the exceptions are under "Left out").

Where the code and its own comments differ, the model follows the code:

- deploy/k8s/gke_orphan_sweeper.py:214-217 says a pod is condemned only when no live worker could
  own it unrecorded; a pod with a dead owner is condemned whether or not a worker is unlinked
  (:186-196). `ReusedNameWitness` and `StaleHandleWitness` are the two ways this shows, and
  `CondemnedExactlyWhen` says exactly when a pod is condemned.
- backend/scripts/legacy_transfer.py:406-411 says the ledger still advances when the existing
  trial is not found; the code marks the row failed (:446-456).
- oddish/scripts/load_only_guard.py:12-20 promises every column read off a typed model value. The
  guard keeps one type a name. For the forms the evaluator follows (the others are under "Left
  out") the promise holds exactly when the guard misses nothing that a typing with all the types a
  name may have finds (`CompleteExactlyWhen`). It holds of every function whose binding sites and
  branches agree and whose slices of typed collections only go to `list`, `sorted` and the like
  (`AgreeingMissesNothing`), which the bindings at the end of the analysis show
  (`AgreeingExactlyWhen`). In every function, a column read only off a local that two sites bind
  to different models, or only off the target of a loop over a slice, is missed
  (`DisagreeingSitesMissARead`, `SlicesMissARead`).
- backend/preview_seed.py:411-412 breaks a cycle by name; the promise of foreign keys first then
  fails for some table, and it holds on every other schema (`OrderRespectsAllExactlyWhen`).

Assumptions a reader should know:

- Names and keys: sha256 prefixes and `:g`-formatted alert keys are injective; times and money are
  exact numbers.
- `OrphanSweeper`: pod names are unique at one moment, UIDs are never reused, and a handle is
  recorded before its pod exists (the source states this order).
- `LoadOnlyGuard`: control flow is over-approximated (any binding site may execute at any time);
  binding sites are visited depth first where the source walks breadth first, and the result holds
  for any order of sites; annotations are given as types; `Opaque` stands for values that are not
  followed.
- `SqlScope`: the deny-lists of columns and functions are one refusal that may happen at any
  column or call. The operands of a set operation are SELECTs with their own WITH clause. Trees
  on which the source would raise are rejected.
- `WorkerLease`: the stores grant a free slot below the limit and forget a lease only when its
  owner asked, or when it was reconciled after its sandbox was gone.
- `EvenFill`: the server never loses trials it counts during a pass, and one pass runs at a time;
  names are positions in the listing, in name order. `faulty` is any set of tasks: submits of the
  others are acknowledged, submits of these may go wrong in every way.
- `OwnerSweep`: whose task a task is, is any predicate of the member's id and claim profile;
  rosters, profiles and the age of rows do not change during a pass. `submits` is any map from rows
  to the owners that submits elsewhere may stamp on them, at some moment or never.
- `Provisioning`: new ids are fresh, the organization lock serializes callbacks, and the unique
  indexes hold of whatever other transactions commit.

## Model

| member | source | states |
|---|---|---|
| OrphanSweeper.ToDelete | deploy/k8s/gke_orphan_sweeper.py:200-231 | the plan condemns exactly the listed pods whose verdict is one of the two delete verdicts |
| OrphanSweeper.ResolveLiveness | deploy/k8s/gke_orphan_sweeper.py:305-381 | the loops over the two result sets compute the declarative ownership view, which depends only on which rows there are: not on their order, and live always wins over dead |
| OrphanSweeper.ViewExactly | deploy/k8s/gke_orphan_sweeper.py:274-302 | a listed pod is owned live if and only if a RUNNING trial row carries its handle; owned dead if and only if none does and some other row with it has no finish time, or one not before the creation time if that is known; the guard is armed if and only if a RUNNING GKE trial row has no handle of a listed pod |
| OrphanSweeper.StaleAliasOwnsNothing | deploy/k8s/gke_orphan_sweeper.py:286-302 | a pod whose name only rows that finished before its creation carry has no dead owner, and an unlinked running GKE trial keeps it |
| OrphanSweeper.DeadOwnerCondemns | deploy/k8s/gke_orphan_sweeper.py:192-194 | a row that finished at or after the creation, or has no finish time, condemns the pod past grace unless a RUNNING row carries its handle |
| OrphanSweeper.CondemnedExactlyWhen | deploy/k8s/gke_orphan_sweeper.py:164-197 | a listed pod is condemned if and only if it is past the grace period with a known creation time, no RUNNING row carries its handle, and either a non-RUNNING row that could have created it does or no running GKE trial is unlinked |
| OrphanSweeper.GuardTheorem | deploy/k8s/gke_orphan_sweeper.py:305-381 | over one database state, a pod condemned while a GKE trial is RUNNING is not that trial's by handle; the trial's handle names a different listed pod, or a non-RUNNING row carries the pod's handle and could have created it |
| OrphanSweeper.StaleHandleWitness | deploy/k8s/gke_orphan_sweeper.py:354-373 | the first exception occurs: a retried trial whose old handle still names a listed pod leaves its new pod unguarded |
| OrphanSweeper.ReusedNameWitness | deploy/k8s/gke_orphan_sweeper.py:274-302 | the second exception occurs: a requeued row that kept a handle condemns a pod while an unlinked GKE trial is RUNNING |
| OrphanSweeper.ListedPodsStay | deploy/k8s/gke_orphan_sweeper.py:384-413 | across any step, a UID-guarded delete included, a listed pod is as listed while it exists and never regains a running owner |
| OrphanSweeper.FirstReadSeesOwners | deploy/k8s/gke_orphan_sweeper.py:424-431 | whatever was listed before it, the first read finds a RUNNING row for every listed pod whose owner runs at that moment |
| OrphanSweeper.PlanSparesOwners | deploy/k8s/gke_orphan_sweeper.py:433-450 | the plan made at the second read holds no pod whose owner runs then |
| OrphanSweeper.RunKeepsInv | deploy/k8s/gke_orphan_sweeper.py:335-373 | every state of every interleaving of workers and the sweep's list, two reads and deletes keeps the invariant |
| OrphanSweeper.SweepSparesRunningPods | deploy/k8s/gke_orphan_sweeper.py:416-452 | in every run no delete removes a pod whose owning attempt is RUNNING at that moment, given that a handle is recorded before its pod exists |
| OrphanSweeper.HandleOrderIsNeeded | deploy/k8s/gke_orphan_sweeper.py:427-430 | without that order some run does remove such a pod |
| BuilderCode.NodesAreOccurrences | oddish/scripts/load_only_guard.py:352-364 | the walk of a function visits an expression if and only if it stands in the text, at any depth: nested bodies, iterables, tests, comprehension clauses and the parts of every other form included |
| BuilderCode.SitesAreBindings | oddish/scripts/load_only_guard.py:287-321 | the binding sites are exactly the assignments, loops and comprehension clauses of the text that bind a plain name, at any depth |
| LoadOnlyGuard.InferBelow | oddish/scripts/load_only_guard.py:240-285 | inference is monotone: bindings below an agreed typing give the agreed type or none |
| BuilderRuns.Preservation | oddish/scripts/load_only_guard.py:240-285 | whatever value an expression can have at run time, each model instance in it is of a type the set-valued typing gives the expression, comprehensions and nested scopes included |
| BuilderRuns.GeneratorsPreserve | oddish/scripts/load_only_guard.py:315-321 | the loop targets of a comprehension are bound to values of their types |
| BuilderRuns.StepPreserves | oddish/scripts/load_only_guard.py:287-313 | every binding a run can make keeps the environment typed by one more round of the set-valued typing |
| BuilderRuns.RunTyped | oddish/scripts/load_only_guard.py:287-342 | every environment of every run, of any length and in any control flow, is typed by the typing the rounds settle at |
| BuilderRuns.TypeWithin | oddish/scripts/load_only_guard.py:240-285 | no type of an expression names a model that no parameter, annotated return or relationship names |
| BuilderRuns.TypesAreAll | oddish/scripts/load_only_guard.py:323-342 | as many rounds as there are names times such types find every type that any number of rounds does |
| BuilderRuns.TypeHasRoot | oddish/scripts/load_only_guard.py:240-321 | each type of an expression goes back to one type of at most one name: wherever the name has it, the expression can have a value of that type |
| BuilderRuns.TypeHasRun | oddish/scripts/load_only_guard.py:287-342 | each type the set-valued typing gives a name is one some run ends with the name having |
| BuilderRuns.ReadableExactlyWhenTyped | oddish/scripts/load_only_guard.py:366-384 | a node can read a column off a model in some run if and only if the settled set-valued typing gives its base the type of an instance of that model |
| LoadOnlyGuard.TypesAreInferred | oddish/scripts/load_only_guard.py:240-285 | where each name has one type, branches agree and slices only go to a sequence wrapper, the types of an expression are the one inferred |
| LoadOnlyGuard.PossibleIsOneType | oddish/scripts/load_only_guard.py:287-342 | under those conditions at a fixpoint no name ever has another type than the one it is bound to |
| LoadOnlyGuard.RoundsSettle | oddish/scripts/load_only_guard.py:323-342 | once a round changes nothing, all later rounds change nothing |
| LoadOnlyGuard.RebindGrows | oddish/scripts/load_only_guard.py:331-340 | when the sites agree a change is a local that had no type before, and it gets the agreed one |
| LoadOnlyGuard.FixpointReached | oddish/scripts/load_only_guard.py:323-342 | when some typing makes the sites agree len(sites)+1 rounds end at a fixpoint that lies below that typing, whatever the order of the sites |
| LoadOnlyGuard.ReadCollector.VisitSite | oddish/scripts/load_only_guard.py:331-340 | one site rebinds its local as the rule for it says and reports whether that changed anything |
| LoadOnlyGuard.ReadCollector.ResolveBindings | oddish/scripts/load_only_guard.py:323-342 | the bounded loop computes len(sites)+1 rounds; when some typing makes the sites agree it ends at a fixpoint, so the bound never cuts it short, and the result lies below that typing |
| LoadOnlyGuard.ReadCollector.Visit | oddish/scripts/load_only_guard.py:352-364 | exactly the reads of the visited nodes are recorded |
| LoadOnlyGuard.ReadIsRecorded | oddish/scripts/load_only_guard.py:353-384 | under those conditions a column read off an instance, by an attribute or a getattr with a literal, is recorded at its node |
| LoadOnlyGuard.NodeMissesNothingExactlyWhen | oddish/scripts/load_only_guard.py:366-384 | under any bindings a node is recorded for every read it can make if and only if each instance type its base may have, with the column, is the inferred one |
| LoadOnlyGuard.CollectIsComplete | oddish/scripts/load_only_guard.py:344-364 | stable bindings below an agreed typing, in a function whose slices of typed collections only go to a sequence wrapper, record every column any run can read |
| LoadOnlyGuard.RecordsBelow | oddish/scripts/load_only_guard.py:344-364 | and record nothing the agreed typing would not |
| LoadOnlyGuard.CompleteExactlyWhen | oddish/scripts/load_only_guard.py:344-364 | for every function, whatever its sites: what is collected holds every column some run reads if and only if it holds every column the set-valued typing finds readable |
| LoadOnlyGuard.AgreeingMissesNothing | oddish/scripts/load_only_guard.py:344-364 | for every function whose sites and branches agree under some typing, with slices of typed collections only going to a sequence wrapper, everything the set-valued typing finds is collected |
| LoadOnlyGuard.AgreeingExactlyWhen | oddish/scripts/load_only_guard.py:323-342 | there is such a typing if and only if the bindings the analysis itself ends with are one |
| LoadOnlyGuard.ReadCollector.Collect | oddish/scripts/load_only_guard.py:344-364 | the result holds every column that some expression of the text can read in some run if and only if nothing the set-valued typing finds is missed, and it does for every agreeing function; under every typing that makes sites and branches agree nothing is in it that the typing does not give |
| LoadOnlyGuard.ReachableFunctions | oddish/scripts/load_only_guard.py:466-492 | the worklist returns exactly the functions some chain of calls in the text, from an entry, comes to; that is the least set closed under local calls; it fails exactly when an entry is not defined |
| LoadOnlyGuard.WorkListStep | oddish/scripts/load_only_guard.py:480-491 | one step of the worklist loses nothing owed and adds nothing outside that least set |
| LoadOnlyGuard.LocalCallsExactly | oddish/scripts/load_only_guard.py:480-491 | the calls followed from a function are exactly those that stand in its text, by plain name, to functions of the module |
| LoadOnlyGuard.ActivationsStayInside | oddish/scripts/load_only_guard.py:466-492 | every chain of calls from an entry stays inside any set that holds the entries and is closed |
| LoadOnlyGuard.LeastClosedIsThePath | oddish/scripts/load_only_guard.py:466-492 | the least closed set is what the chains of calls from the entries come to |
| LoadOnlyGuard.CollectFunction | oddish/scripts/load_only_guard.py:495-515 | the reads of one function are what its own resolved bindings record, complete if and only if nothing is missed there |
| LoadOnlyGuard.AgreedReadIsCollected | oddish/scripts/load_only_guard.py:495-515 | each column that a run of an agreeing function reads, in any activation reachable from an entry, is collected |
| LoadOnlyGuard.CollectReadColumns | oddish/scripts/load_only_guard.py:495-515 | a column is collected if and only if it is recorded for some function on the builder path |
| LoadOnlyGuard.DeclaredColumns | oddish/scripts/load_only_guard.py:444-463 | the declared columns are those of the column arguments and of the starred tuple constants |
| LoadOnlyGuard.NoViolations | oddish/scripts/load_only_guard.py:523-539 | the report is empty if and only if every read column is declared or a primary key |
| LoadOnlyGuard.Guard | oddish/scripts/load_only_guard.py:523-539 | the report is empty if and only if each column recorded for a function that a chain of calls in the text reaches is declared or a primary key; then so is each column that some expression of such a function's text reads in some run, when its sites, branches and slices agree, and in any other function in which nothing is missed |
| LoadOnlyGuard.TwoTypesMissARead | oddish/scripts/load_only_guard.py:366-384 | where one node alone reads a column of that name, and its base may be of two models with the column, it can read both and at most one is collected |
| LoadOnlyGuard.DisagreeingSitesMissARead | oddish/scripts/load_only_guard.py:323-342 | for every function and any two of its sites that bind one local to instances of two models: where the column is read off that local alone, both reads occur in some run and at most one is collected |
| LoadOnlyGuard.SlicesMissARead | oddish/scripts/load_only_guard.py:276-280 | for every function, model and column: of a local bound only by loops over subscripts, one of them a slice of a typed collection, a column read off it alone is read in some run and not collected |
| LoadOnlyGuard.TwiceMissesARead | oddish/scripts/load_only_guard.py:323-342 | an instance: of a local assigned from two annotated helpers of different models one read is missed |
| LoadOnlyGuard.SliceLoopMissesItsRead | oddish/scripts/load_only_guard.py:276-280 | an instance: the read in a loop over a slice of an annotated parameter is missed |
| SqlScope.Validator.InspectRelation | backend/carl_tools.py:394-408 | an error is left alone or set, and none remains exactly when the relation is a CTE in scope, allow-listed or in information_schema |
| SqlScope.Validator.Walk | backend/carl_tools.py:410-467 | an error once set is never cleared; without one everything below the node is accepted; an error set here by a scoping or statement rule means something below is not |
| SqlScope.Validator.WalkSelect | backend/carl_tools.py:491-529 | the same for a SELECT with its own WITH clause |
| SqlScope.ScopeRule | backend/carl_tools.py:494-513 | query k of a WITH clause sees a name of the clause if and only if an earlier entry defines it, or any entry under RECURSIVE; the body sees a name if and only if some entry defines it (PostgreSQL documentation, section 7.8) |
| SqlScope.Validator.WalkCtes | backend/carl_tools.py:499-513 | each query of the clause is walked with the enclosing names and its earlier siblings, or all siblings when recursive |
| SqlScope.Validator.WalkBody | backend/carl_tools.py:514-529 | the rest of the SELECT is walked with all the names of its clause |
| SqlScope.ValidateSql | backend/carl_tools.py:357-532 | an accepted query is one statement that is well scoped at every position of its tree, at any depth; a rejection for another reason than the deny-lists means a modelled rule is broken |
| SqlScope.MoreScopeAccepts | backend/carl_tools.py:410-467 | what is accepted with few names in scope is accepted with more |
| SqlScope.WalkedStep | backend/carl_tools.py:491-529 | going one hop down, set-operation operands included, stays within what the walk accepted under the scope the WITH rules give |
| SqlScope.AcceptedIsWellScoped | backend/carl_tools.py:394-532 | whatever the walk accepts has, at every depth, only the permitted statement nodes and clauses, no wildcard, and relations that are on the list, in information_schema or a name in scope by the WITH rules (PostgreSQL documentation, section 7.8) |
| SqlScope.LaterSiblingIsRefused | backend/carl_tools.py:505-513 | a plain WITH query that names its own entry or a later one, anywhere in it, is refused unless the name is on the list, in an enclosing scope or defined by an earlier entry |
| SqlScope.SelfNamingIsRefused | backend/carl_tools.py:505-513 | an instance: WITH x AS (SELECT .. FROM x) SELECT .. FROM x reads the table x, and is refused unless x is on the list |
| SlackOutbox.MilestonesAreThoseReached | backend/slack_notifications.py:235-249 | the milestones of a total are exactly the values first + i*repeat it has reached, ascending and without repeats |
| SlackOutbox.FirstOfEachIsDistinct | backend/slack_notifications.py:273-298 | deduplication loses no (key, recipient) and keeps none twice |
| SlackOutbox.FirstOfEachIsFirst | backend/slack_notifications.py:273-298 | the alert kept is the first with its (key, recipient) |
| SlackOutbox.BuildFailureDms | backend/slack_notifications.py:273-298 | the loop with its seen set computes that deduplication |
| SlackOutbox.RecordedKeeps | backend/slack_notifications.py:1248-1259 | recording never changes a row already in the outbox |
| SlackOutbox.RecordedKeys | backend/slack_notifications.py:1289-1335 | the rows afterwards are the old ones and those of the alerts whose channel is configured and, for DMs, whose recipient is not blank |
| SlackOutbox.RecordedIsFirst | backend/slack_notifications.py:1248-1259 | a new key holds the text, normalized recipient and mentions of the first alert recorded under it, born sent exactly when that alert is silent |
| SlackOutbox.DedupAgreesWithOutbox | backend/slack_notifications.py:281-285 | two DMs share an outbox row exactly when the dedup of one run takes them for one, and no channel alert shares it |
| SlackOutbox.RollingTotals | backend/slack_notifications.py:235-249 | however a rolling total rises and falls over any number of ticks, milestone first + i*repeat has its one row if and only if some tick reached it |
| SlackOutbox.Outbox.RecordAlerts | backend/slack_notifications.py:1289-1335 | the outbox becomes the recorded one; first payload, recipient and sent state survive, and so do the post counts |
| SlackOutbox.Outbox.MentionPrefix | backend/slack_notifications.py:1338-1356 | the mention resolver caches exactly what its lookups answered, and mentions exactly the accounts found for the mentioned addresses |
| SlackOutbox.Outbox.DeliverRow | backend/slack_notifications.py:1367-1402 | one row is settled only after a post, for a DM to the account that the lookup of its address found, or because this run's lookup found no account; a post carries the row's text |
| SlackOutbox.Outbox.DeliverOne | backend/slack_notifications.py:1359-1405 | a crash before, between or after post and mark keeps posts of a row at most 1 plus the crashes |
| SlackOutbox.Outbox.DeliverPending | backend/slack_notifications.py:1359-1405 | over a whole run a row becomes sent only for want of a payload, after a post in this run, or because this run's lookup of its address answered that there is no account; a DM row whose lookup found one becomes sent only after a post, to that account; nothing sent reverts |
| SlackOutbox.FoundIsPosted | backend/slack_notifications.py:1381-1389 | a DM with a text whose address has an account becomes sent only by a post |
| SlackOutbox.Outbox.RunOnce | backend/slack_notifications.py:1289-1405 | with a channel one scheduled run records the rows of its alerts, after which rows are at most marked sent, and every message it delivers goes where this run's lookups say; without one it changes nothing; it adds to the crashes only by crashing itself |
| SlackOutbox.Outbox.Run | backend/slack_notifications.py:1289-1405 | over any number of scheduled runs payload and recipient never change, sent never reverts, and successful posts of a row are at most one, plus the crashes before, plus the number of these runs that crashed |
| WorkerLease.JobWorker.TryBody | backend/worker/functions.py:307-414 | the variables the finally block reads say exactly what was acquired and whether the sandbox may still be live; the job starts if and only if a queue slot was granted, with a capacity lease when its lane needs one |
| WorkerLease.JobWorker.RunOneJob | backend/worker/functions.py:267-452 | on every exit path an acquired queue slot is released exactly once and otherwise the reservation is; the capacity lease is given back exactly when the job never started or returned normally |
| WorkerLease.JobWorker.ReleaseSlotOrReservation | backend/worker/functions.py:428-436 | the inner finally asks for the slot or else the reservation, never both |
| WorkerLease.JobWorker.ReleaseCapacity | backend/worker/functions.py:437-443 | the lease is given back when the flag allows, even after the other release raised |
| WorkerLease.DisciplinedPrefix | backend/worker/functions.py:307-452 | a worker stopped at any moment has followed the lease discipline so far |
| WorkerLease.Dispatcher.CycleBody | backend/worker/functions.py:1057-1262 | until all launches are known nothing is released, and then exactly the failed tokens are |
| WorkerLease.Dispatcher.PollQueue | backend/worker/functions.py:1035-1275 | every reserved token ends in an accepted spawn or a release call, on every exit path |
| WorkerLease.FleetStepKeepsInv | backend/worker/functions.py:325-377 | every step of any worker or of the store keeps each lease that may be in use held for its worker |
| WorkerLease.LiveSandboxesAreCovered | backend/worker/functions.py:365-394 | in every interleaving each sandbox that may still live is covered by a lease held for its worker, and live sandboxes never exceed the limit |
| LegacyDiscover.TakeTrial | backend/scripts/legacy_discover.py:341-358 | moving a message into the batch secures no less ahead of any later queue position |
| LegacyDiscover.Discovery.Emit | backend/scripts/legacy_discover.py:317-323 | a scanner's put keeps the invariant |
| LegacyDiscover.Discovery.Mark | backend/scripts/legacy_discover.py:324-329 | a marker goes on the queue only behind all trials of its shard |
| LegacyDiscover.Discovery.WriterStep | backend/scripts/legacy_discover.py:331-369 | the writer keeps the invariant at every message, with a crash possible between a flush and the shard's record |
| LegacyDiscover.Discovery.Crash | backend/scripts/legacy_discover.py:241-251 | a crash, even inside an insert, keeps both tables and lets a resume start from the shards not done |
| LegacyDiscover.Discovery.FinishedIsComplete | backend/scripts/legacy_discover.py:375-381 | a run that finishes leaves exactly the union of all shards' trials and what was there before |
| LegacyDiscover.Discovery.Run | backend/scripts/legacy_discover.py:265-381 | for any interleaving and any number of crashes and resumes a shard recorded as done has all its trials in the ledger, and a finish is complete |
| LegacyTransfer.RootOf | backend/scripts/legacy_transfer.py:77-80 | the run root is the longest prefix before the first agent segment |
| LegacyTransfer.ExactlyOnce | backend/scripts/legacy_transfer.py:83-95 | under the invariant a ledger prefix has at most one trial, and a transferred row's trial is it, with its origin |
| LegacyTransfer.Migration.Import | backend/scripts/legacy_transfer.py:392-404 | the importer adds at most one trial under the row's key, may raise after its commit, and touches no ledger row |
| LegacyTransfer.Migration.Patch | backend/scripts/legacy_transfer.py:438-445 | one transaction sets the origin and marks the row transferred |
| LegacyTransfer.Migration.ProcessRow | backend/scripts/legacy_transfer.py:384-460 | with others interleaved at every await and a crash anywhere, a row becomes transferred only with its own trial and origin; without a crash it is not left merely discovered, with one it is as it was; rows of the same group do not change |
| LegacyTransfer.Migration.Conclude | backend/scripts/legacy_transfer.py:406-460 | once the importer has answered, the row ends transferred with its trial and origin or failed, or, by a crash, as it was |
| LegacyTransfer.Migration.FailGroup | backend/scripts/legacy_transfer.py:368-375 | one transaction marks exactly the rows of a group whose setup raised as failed and changes no other row |
| LegacyTransfer.Migration.SetupFails | backend/scripts/legacy_transfer.py:361-378 | the marking may crash before or after it commits: either nothing changed or all rows of the group, and only they, are failed |
| LegacyTransfer.Migration.ProcessGroup | backend/scripts/legacy_transfer.py:336-460 | the same for a group, whose setup may fail and fail every row of it |
| LegacyTransfer.Migration.PendingRows | backend/scripts/legacy_transfer.py:159-177 | the work list is the discovered rows, and the failed ones when retrying |
| LegacyTransfer.Migration.Runs | backend/scripts/legacy_transfer.py:336-460 | over any number of crashing runs the invariant holds and a transferred row never changes again |
| LegacyTransfer.Migration.FaultlessRetry | backend/scripts/legacy_transfer.py:336-460 | after any history one retrying run without faults leaves every row transferred |
| EvenFill.CountCell | eval-ops/even_fill.py:128-146 | held, pending, valid and existing count the trials as classified; burnt ones count only as existing |
| EvenFill.TopUp | eval-ops/even_fill.py:165-171 | the top-up of one eval task never passes the in-flight target or its own target, and reaches one of them |
| EvenFill.GiveOne | eval-ops/even_fill.py:183-191 | one step of the surplus loop keeps the extra trials at one water level along the order and moves one trial from room to extra |
| EvenFill.OneRound | eval-ops/even_fill.py:182-191 | a round stops at the floor, and makes no progress only when no task has room |
| EvenFill.LevelIsFair | eval-ops/even_fill.py:181-193 | a common water level is round-robin fair: earlier tasks get no less than later ones and at most one more, room allowing |
| EvenFill.HandOut | eval-ops/even_fill.py:176-193 | the surplus loop terminates with projected in-flight equal to max(base, min(floor, base + total room)), no task past its room, and round-robin fairness |
| EvenFill.Neediest | eval-ops/even_fill.py:179-179 | the order is the tasks below target, fewest valid and then fewest held first |
| EvenFill.Allocate | eval-ops/even_fill.py:159-193 | top-ups and surplus together: no task past its target, tasks at target get nothing, the floor formula and fairness |
| EvenFill.Fleet.Resolve | eval-ops/even_fill.py:9-11 | the server creates max(0, N - existing) trials for a submit with --n-trials N |
| EvenFill.Fleet.Submit | eval-ops/even_fill.py:217-235 | the retries of one submit create either nothing or exactly the number asked for, however many calls or replies are lost and whatever trials end meanwhile; exactly that when acknowledged, as every submit of a task without faults is; trials made by an unacknowledged submit, and only those, are counted as unheard |
| EvenFill.Fleet.PerTaskPass | eval-ops/even_fill.py:159-245 | a per-task pass submits neediest task first and creates no more than the allocation, and exactly it for every task whose submits are heard; no task passes its target |
| EvenFill.FewestHeld | eval-ops/even_fill.py:254-267 | cap mode's order is the short tasks, fewest held first and by name within |
| EvenFill.Fleet.CapPass | eval-ops/even_fill.py:247-308 | a cap-mode pass makes at most one trial per short task, for a prefix of that order, and stops early only when the headroom is spent; what is made is the acknowledged trials, within the headroom, and the unheard ones, at most one for each faulty task and none when there are none |
| EvenFill.PendingGrows | eval-ops/even_fill.py:154-154 | total in-flight grows by no more than what was made |
| EvenFill.Fleet.Passes | eval-ops/even_fill.py:154-308 | over any sequence of passes with trials turning valid or burnt, no task holds more than the target (or what it held at first); in cap mode with every reply heard in-flight never exceeds the cap (or what it was at first), and otherwise exceeds it by no more than the unheard trials, at most one a pass for each faulty task |
| PassAtK.ChooseNext | eval-ops/passk.py:103-106 | the factor by which the product moves from i draws to i + 1 |
| PassAtK.PassAtK | eval-ops/passk.py:92-107 | on all integers: the product form is the binomial ratio 1 - C(n-c,k)/C(n,k), and each early return is its value or, outside its domain, the constant returned |
| PassAtK.CountKSubsets | eval-ops/passk.py:21-26 | C(n,k) is the number of k-element subsets of a set of n |
| PassAtK.CountHits | eval-ops/passk.py:21-26 | C(n,k) - C(n-c,k) of them hold at least one of c given elements |
| PassAtK.RateIsShareOfDraws | eval-ops/passk.py:21-26 | the estimate is the share of k-element draws that hold a pass, whichever trials pass |
| PassAtK.RateIsAProbability | eval-ops/passk.py:92-107 | it lies in [0,1], is 0 without passes and 1 when all pass |
| PassAtK.RateGrowsWithDraws | eval-ops/passk.py:92-107 | it is nondecreasing in k, beyond n too |
| PassAtK.RateGrowsWithPasses | eval-ops/passk.py:92-107 | it is nondecreasing in c |
| Delivery.EscapeIsCharwise | backend/carl.py:98-99 | the three replacements in sequence escape each character on its own |
| Delivery.RoundTrip | backend/carl.py:98-99 | unescaping an escaped text gives it back |
| Delivery.AmpIsClosed | backend/carl.py:106-108 | an ampersand of escaped text opens an entity that is closed before the text ends |
| Delivery.SplitIsAtWholeChar | backend/carl.py:102-109 | on escaped text and any limit of at least 4 the split falls exactly after the longest run of whole characters that fits |
| Delivery.SplitEscaped | backend/carl.py:102-109 | with a limit of at least 5 the split of a nonempty text advances and both parts are escaped texts of the two pieces |
| Delivery.Kept | backend/carl.py:112-121 | the inner split of post and update drops nothing of a text within the limit |
| Delivery.Thread.DeliverFirst | backend/carl.py:137-150 | the first chunk ends up in the placeholder or reposted at the end of the thread, or neither was acknowledged; nothing else changes |
| Delivery.NextChunk | backend/carl.py:151-163 | each overflow chunk is a whole piece of the text that survives the inner split, and the loop advances |
| Delivery.Thread.DeliverRest | backend/carl.py:151-163 | the chunks acknowledged tell a prefix of the text and stand in order, all of it when no post fails |
| Delivery.WarnedIsWhole | backend/carl.py:156-161 | the warning added to a first message cuts none of its entities |
| Delivery.Thread.Deliver | backend/carl.py:132-164 | on complete the unescaped messages concatenate to the text; on partial to a prefix, the first perhaps with the uncut warning; on failed nothing was acknowledged; no message, acknowledged or not, exceeds the limit or cuts an entity |
| TopoOrder.Dependencies | backend/preview_seed.py:395-403 | a table's dependencies are the targets of its foreign keys, self references and back edges left out |
| TopoOrder.OrderableExactlyWhen | backend/preview_seed.py:405-415 | some round settles a table if and only if no foreign-key cycle is reachable from it |
| TopoOrder.Ready | backend/preview_seed.py:408-410 | a round's batch is exactly the tables left whose dependencies are all ordered, sorted by name |
| TopoOrder.NextBatch | backend/preview_seed.py:407-414 | a batch extends the order by the next round and brings the loop forward |
| TopoOrder.LastBatch | backend/preview_seed.py:411-414 | when no round can go on, everything left reaches a cycle and may follow everything else |
| TopoOrder.TopoOrder | backend/preview_seed.py:393-415 | the loop terminates on every schema with each table once, by round and by name within a round, the tables that reach a cycle last |
| TopoOrder.DependenciesFirst | backend/preview_seed.py:393-415 | a table from which no cycle is reachable comes after every table it depends on |
| TopoOrder.Seed | backend/preview_seed.py:463-467 | the load loop loads every sampled row, and for a sample closed under references each row of a table that reaches no cycle is loaded after every row it refers to |
| TopoOrder.OrderRespectsAllExactlyWhen | backend/preview_seed.py:393-415 | the order puts no table before one it depends on if and only if no foreign-key cycle is reachable from any table of the schema |
| OwnerSweep.GatheredKeys | backend/dashboard_attribution.py:210-246 | the lists built with seen and blocked sets hold each unblocked identity once |
| OwnerSweep.ProfileIsWhatIsUnblocked | backend/dashboard_owner_backfill.py:29-74 | a profile lists exactly the member's registered and cached identities that are not blocked, without two that compare equal |
| OwnerSweep.ProfileFromUserRow | backend/dashboard_owner_backfill.py:29-74 | the baseline and then the cached aliases, built in loops, are that profile |
| OwnerSweep.ProfileExactly | backend/dashboard_owner_backfill.py:29-74 | over the user row itself: a handle is in the profile if and only if it is not blocked and some registered or cached handle comes to it without surrounding space, leading @ and case; an address if and only if it is not blocked and some registered or cached one with an @ comes to it without surrounding space and case |
| OwnerSweep.ClaimProfile | backend/dashboard_owner_backfill.py:235-250 | the second phase blocks each member from whatever is in any other member's full profile |
| OwnerSweep.ClaimProfilesAreDisjoint | backend/dashboard_owner_backfill.py:202-262 | no handle or address is in two members' claim profiles |
| OwnerSweep.RosterOrderDoesNotMatter | backend/dashboard_owner_backfill.py:202-262 | however the roster is permuted, each member has the same claim profile, so identity matches do not depend on the order of members |
| OwnerSweep.ClaimProfileKeeps | backend/dashboard_owner_backfill.py:202-262 | a member keeps an identity if and only if it is theirs and no other member's |
| OwnerSweep.ReclaimProfile | backend/dashboard_owner_backfill.py:281-313 | a reclaim filters the discovered profile by the other members' full profiles |
| OwnerSweep.ReclaimCannotOutclaim | backend/dashboard_owner_backfill.py:265-321 | whatever was discovered, nothing another member claims by is left in it |
| OwnerSweep.Sweep.SelectClaims | backend/dashboard_owner_backfill.py:77-120 | the selected rows are live rows of the org, unowned, whose task the member matches; some are selected whenever there are any |
| OwnerSweep.Sweep.ClaimRows | backend/dashboard_owner_backfill.py:123-137 | the guarded update stamps exactly the selected rows that are still unowned |
| OwnerSweep.Sweep.ClaimForOrg | backend/dashboard_owner_backfill.py:202-262 | a real owner is never overwritten; each row that changed has the owner a submit stamped it with, or one that may claim it; and something moves when anything is claimable |
| OwnerSweep.Sweep.StampSentinels | backend/dashboard_owner_backfill.py:167-181 | only unowned rows an hour old get the sentinel, and some do when there are any |
| OwnerSweep.Sweep.SweepOrg | backend/dashboard_owner_backfill.py:353-372 | the sentinel is stamped only when the org's claims took nothing, on old unowned rows; every other change is a submit's own stamp or an earned claim |
| OwnerSweep.CountsFall | backend/dashboard_owner_backfill.py:332-378 | a pass never raises the number of experiments without a real owner or of unowned ones, and a move lowers the pair lexicographically |
| OwnerSweep.Sweep.Backfill | backend/dashboard_owner_backfill.py:324-378 | a pass lowers the pair (experiments without a real owner, unowned ones) lexicographically unless no unowned one is claimable or an hour old; every twentieth pass, from the first, stamped ones count as well; submits may stamp their owners at any point between statements, and every change is one of those stamps or earned |
| OwnerSweep.Sweep.Converge | backend/dashboard_owner_backfill.py:332-378 | after as many passes as the two numbers add up to, no experiment is left unowned that a member may claim or that is old, and every change on the way is a submit's stamp or earned |
| Provisioning.Users.SetGithubIdIfAbsent | backend/auth/provisioning.py:141-184 | uniqueness of (org, github_id) over all rows, deleted ones included, survives; an active holder keeps its id and blocks the claim; inactive holders let go; a lost race leaves none |
| Provisioning.Users.ApplyGithubId | backend/auth/provisioning.py:187-201 | a stale id is dropped in every case and replaced only by the authoritative one |
| Provisioning.Users.Run | backend/auth/provisioning.py:141-201 | any run of claims, relinks, deactivations and returns, with other transactions in between, keeps the ids unique |
| Provisioning.ReleaseKeepsUnique | backend/auth/provisioning.py:149-166 | releasing inactive holders keeps the index intact and leaves no holder |
| Provisioning.BaseSlugExactly | backend/auth/provisioning.py:437-440 | the base is the runs of letters and digits of the lower-cased text, joined by single dashes, or org when there are none |
| Provisioning.BaseSlugShape | backend/auth/provisioning.py:437-440 | the base is nonempty, of lower-case letters, digits and inner dashes |
| Provisioning.DecimalIsInjective | backend/auth/provisioning.py:451-452 | decimal suffixes tell numbers apart |
| Provisioning.CandidatesDiffer | backend/auth/provisioning.py:441-452 | all the slugs tried are different |
| Provisioning.SearchEnds | backend/auth/provisioning.py:443-452 | no more slugs can be tried in vain than are taken |
| Provisioning.Orgs.FreeSlug | backend/auth/provisioning.py:441-452 | the search terminates with the first candidate no other organization has |
| Provisioning.Orgs.SyncClerkOrg | backend/auth/provisioning.py:413-465 | the callback changes only its organization, as the branches say, and keeps slugs and Clerk ids unique over all rows |
| Provisioning.ReplayChangesNothing | backend/auth/provisioning.py:413-465 | delivering the same callback again changes nothing |
| Provisioning.CallbacksNeverApprove | backend/auth/provisioning.py:430-461 | no callback sets approval, revives an organization or changes a deactivated one; a new one starts unapproved |
| Provisioning.FreeSlugShape | backend/auth/provisioning.py:437-452 | every slug given out has the shape of one |

## Left out

- Network, database, object-store and Kubernetes calls: replaced by the contracts above; the SQL parser, HTTP routing, authentication and the dashboards are not part of this model.
- OrphanSweeper: naive timestamps, pods without a UID, logging and counts, the dry run; a failed delete is only that it may not take effect.
- LoadOnlyGuard: reading annotations, module-level tuple collection, schema units, the stray-site tripwire and the file handling around the guard.
- BuilderRuns: values of `x and y`, `:=`, `await`, lambda and nested function parameters, tuple targets such as `for i, t in enumerate(ts)`, and calls of methods are not followed; the source gives these no type either and misses the reads off them.
- LoadOnlyGuard.Guard: one unit and one builder module at a time; the union over several modules is not modelled.
- SqlScope: membership in the column and function deny-lists, and base-relation collection, which only feeds them.
- SqlScope.ValidateSql: only accepted implies well scoped, because the walker is deliberately conservative and rejects some well scoped queries.
- SlackOutbox: message wording, links, and the other alert kinds of `build_alerts`, which append without state of their own.
- SlackOutbox.RollingTotals: decimal and float conversion of the milestones, which are exact reals here.
- SlackOutbox.Outbox.Post: a message that is delivered although its call raises; the row stays pending, so such a post would add one to the bound of its row.
- WorkerLease.JobWorker.Acquire: a slot or capacity acquire that commits and then raises; the worker then holds nothing it knows of, and the stores' expiry gives the lease back.
- WorkerLease: expiry of leases in the stores, telemetry, and the choice of a worker function for a launch.
- LegacyDiscover: parsing object keys, and the counts and flags gathered per trial.
- LegacyTransfer: building the trial specification, creating tasks and experiments, and the counters.
- EvenFill: the command line, sweep templates, the nonce and the request dedup it defeats, and refusing a pass with unreadable tasks.
- EvenFill.Fleet.TrialsEnd: trials that the server stops counting (superseded or deleted ones) are not modelled.
- PassAtK: float rounding, and the averaging of `curve` over tasks.
- Delivery: rate-limit retries inside one call, and messages other writers add to the thread.
- TopoOrder: the linkage update after the load, reconciliation with an earlier draw, and rows that refer to rows of their own table.
- TopoOrder.Seed: a load that raises stops the loop and leaves a prefix of this log.
- OwnerSweep: how a task's author is matched (`build_primary_task_author_match` is not part of this model), soft deletes during a pass, and cached values that are not strings.
- Provisioning: claims without a session, the membership and role paths, and fetching from Clerk.
- Migrations, models, observability, the frontend, deployment configuration and one-off audit scripts are not part of this model.
- backend/worker/gke_cluster_reaper.py, the decision table that stops idle clusters, is not part of this model.
