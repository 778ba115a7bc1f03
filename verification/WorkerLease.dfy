/**
  The lease lifecycle of a job worker and of the dispatcher.  Every awaited call may return or
  raise; what a worker asked of the slot, reservation and capacity stores is kept in a log, and
  the statements are about that log on every exit path.

  A second part puts any number of workers side by side over one capacity store and shows that
  every sandbox that may still be live is covered by a lease it holds.
 */
module WorkerLease {
  import opened Common

  datatype Event =
    | CapacityAcquired(slot: nat)
    | SlotAcquired(slot: nat)
    | JobStarted
    | JobReturned
    | SlotReleased(slot: nat)
    | ReservationsReleased(tokens: seq<nat>)
    | CapacityReleased(slot: nat)

  datatype Exit = Returned | Raised

  // ---------------------------------------------------------------- the capacity lease as an automaton

  datatype Lease = NoLease | Leased(slot: nat) | InUse(slot: nat) | Finished(slot: nat) | GivenBack

  /** What an event does to a worker's capacity lease; `None` when the discipline forbids it. */
  function LeaseStep(l: Lease, e: Event): Option<Lease> {
    match e
    case CapacityAcquired(slot) => if l.NoLease? then Some(Leased(slot)) else None
    case JobStarted => if l.NoLease? then Some(l) else if l.Leased? then Some(InUse(l.slot)) else None
    case JobReturned => if l.NoLease? then Some(l) else if l.InUse? then Some(Finished(l.slot)) else None
    case CapacityReleased(slot) => if (l.Leased? || l.Finished?) && l.slot == slot then Some(GivenBack) else None
    case _ => Some(l)
  }

  function LeaseAfter(log: seq<Event>): Option<Lease> {
    if log == [] then Some(NoLease)
    else match LeaseAfter(log[..|log| - 1])
         case None => None
         case Some(l) => LeaseStep(l, log[|log| - 1])
  }

  /** A worker stopped anywhere has followed the discipline, if the whole log does. */
  lemma {:induction false} DisciplinedPrefix(log: seq<Event>, n: nat)
    requires n <= |log| && LeaseAfter(log).Some?
    ensures LeaseAfter(log[..n]).Some?
  {
    if n < |log| {
      DisciplinedPrefix(log[..|log| - 1], n);
      assert log[..|log| - 1][..n] == log[..n];
    } else {
      assert log[..n] == log;
    }
  }

  // ---------------------------------------------------------------- what a log adds up to

  /** Everything a worker acquired and asked to release, in order. */
  datatype Account = Account(
    slots: seq<nat>, freedSlots: seq<nat>,
    capacity: seq<nat>, freedCapacity: seq<nat>,
    freedTokens: seq<nat>,
    started: bool, returned: bool)
  {
    /** The job was started and has not returned normally: its sandbox may still be live. */
    predicate MayBeLive() {
      started && !returned
    }
  }

  function Book(a: Account, e: Event): Account {
    match e
    case CapacityAcquired(slot) => a.(capacity := a.capacity + [slot])
    case SlotAcquired(slot) => a.(slots := a.slots + [slot])
    case JobStarted => a.(started := true)
    case JobReturned => a.(returned := true)
    case SlotReleased(slot) => a.(freedSlots := a.freedSlots + [slot])
    case ReservationsReleased(tokens) => a.(freedTokens := a.freedTokens + tokens)
    case CapacityReleased(slot) => a.(freedCapacity := a.freedCapacity + [slot])
  }

  function AccountOf(log: seq<Event>): Account {
    if log == [] then Account([], [], [], [], [], false, false)
    else Book(AccountOf(log[..|log| - 1]), log[|log| - 1])
  }

  lemma LogGrows(log: seq<Event>, e: Event)
    ensures AccountOf(log + [e]) == Book(AccountOf(log), e)
    ensures LeaseAfter(log).Some? ==> LeaseAfter(log + [e]) == LeaseStep(LeaseAfter(log).value, e)
  {
    assert (log + [e])[..|log|] == log;
  }

  // ---------------------------------------------------------------- one job worker

  class JobWorker {
    var log: seq<Event>

    constructor ()
      ensures log == []
    {
      log := [];
    }

    method Record(e: Event)
      modifies this
      ensures log == old(log) + [e]
      ensures AccountOf(log) == Book(AccountOf(old(log)), e)
      ensures LeaseAfter(old(log)).Some? ==> LeaseAfter(log) == LeaseStep(LeaseAfter(old(log)).value, e)
    {
      LogGrows(log, e);
      log := log + [e];
    }

    /** A call that only returns or raises. */
    method Await() returns (raised: bool) {
      if * { raised := true; } else { raised := false; }
    }

    /** A store asked for a slot: one it grants, none free, or an exception. */
    method Acquire() returns (raised: bool, slot: Option<nat>)
      ensures raised ==> slot.None?
    {
      if * {
        return true, None;
      } else if * {
        return false, None;
      }
      var n: int :| 0 <= n;
      return false, Some(n);
    }

    /** The variables the `finally` block reads, as the log shows them. */
    ghost predicate Tracks(lockSlot: Option<nat>, capacitySlot: Option<nat>, releaseCapacity: bool)
      reads this
    {
      var a := AccountOf(log);
      && a.freedSlots == [] && a.freedTokens == [] && a.freedCapacity == []
      && a.slots == (if lockSlot.Some? then [lockSlot.value] else [])
      && a.capacity == (if capacitySlot.Some? then [capacitySlot.value] else [])
      && (a.returned ==> a.started)
      && (capacitySlot.Some? ==> (releaseCapacity <==> !a.MayBeLive()))
      && LeaseAfter(log) == Some(
           if capacitySlot.None? then NoLease
           else if !a.started then Leased(capacitySlot.value)
           else if !a.returned then InUse(capacitySlot.value)
           else Finished(capacitySlot.value))
    }

    /** The try block: it may raise at any await. */
    method TryBody(knownLane: bool, capacityLane: bool, queueLimit: int)
      returns (exit: Exit, lockSlot: Option<nat>, capacitySlot: Option<nat>, releaseCapacity: bool)
      requires log == []
      modifies this
      ensures Tracks(lockSlot, capacitySlot, releaseCapacity)
      ensures capacitySlot.Some? ==> capacityLane
      ensures lockSlot.Some? <==> AccountOf(log).started
      ensures lockSlot.Some? ==> knownLane && 0 < queueLimit && (capacityLane ==> capacitySlot.Some?)
    {
      exit, lockSlot, capacitySlot, releaseCapacity := Raised, None, None, true;
      var raised := Await();                               // configure_storage_paths
      if raised || !knownLane {
        return;
      }
      if capacityLane {
        raised, capacitySlot := Acquire();
        if raised {
          return;
        }
        if capacitySlot.None? {
          exit := Returned;
          return;
        }
        Record(CapacityAcquired(capacitySlot.value));
      }
      exit, lockSlot, releaseCapacity := WorkUnderLease(capacityLane, capacitySlot, queueLimit);
    }

    /** The try block from the concurrency limit on, with whatever capacity lease there is. */
    method WorkUnderLease(capacityLane: bool, capacitySlot: Option<nat>, queueLimit: int)
      returns (exit: Exit, lockSlot: Option<nat>, releaseCapacity: bool)
      requires Tracks(None, capacitySlot, true) && !AccountOf(log).started && (capacityLane <==> capacitySlot.Some?)
      modifies this
      ensures Tracks(lockSlot, capacitySlot, releaseCapacity)
      ensures lockSlot.Some? <==> AccountOf(log).started
      ensures lockSlot.Some? ==> 0 < queueLimit
    {
      exit, lockSlot, releaseCapacity := Raised, None, true;
      var raised := Await();                               // effective concurrency limit
      if raised {
        return;
      }
      if queueLimit <= 0 {
        exit := Returned;
        return;
      }
      raised, lockSlot := Acquire();                       // adopts the launch reservation
      if raised {
        return;
      }
      if lockSlot.None? {
        exit := Returned;
        return;
      }
      Record(SlotAcquired(lockSlot.value));
      // Only a normal return proves the sandbox was torn down.
      if capacityLane {
        releaseCapacity := false;
      }
      Record(JobStarted);
      raised := Await();                                   // run the job, or drain a batch
      if raised {
        return;
      }
      Record(JobReturned);
      if capacityLane {
        releaseCapacity := true;
      }
      exit := Returned;
    }

    /**
      Run one job.  On every exit path: an acquired queue slot is released exactly once and then
      no reservation is; otherwise the worker's reservation is released exactly once.  An
      acquired capacity lease is given back exactly when the job never started or returned
      normally.
     */
    method RunOneJob(knownLane: bool, capacityLane: bool, queueLimit: int, reservation: Option<nat>)
      returns (exit: Exit)
      requires log == []
      modifies this
      ensures var a := AccountOf(log);
        && a.freedSlots == a.slots && |a.slots| <= 1
        && a.freedTokens == (if a.slots == [] && reservation.Some? then [reservation.value] else [])
        && a.freedCapacity == (if a.MayBeLive() then [] else a.capacity)
        && |a.capacity| <= 1 && (a.capacity != [] ==> capacityLane)
        && (a.started <==> a.slots != [])
        && (a.started ==> knownLane && 0 < queueLimit && (capacityLane <==> a.capacity != []))
      ensures LeaseAfter(log).Some?
    {
      var lockSlot, capacitySlot, releaseCapacity;
      exit, lockSlot, capacitySlot, releaseCapacity := TryBody(knownLane, capacityLane, queueLimit);
      var raised := ReleaseSlotOrReservation(lockSlot, reservation);
      if raised {
        exit := Raised;
      }
      raised := ReleaseCapacity(capacitySlot, releaseCapacity);
      if raised {
        exit := Raised;
      }
      raised := Await();                                   // close_database_connections
      if raised {
        exit := Raised;
      }
    }

    method ReleaseSlotOrReservation(lockSlot: Option<nat>, reservation: Option<nat>) returns (raised: bool)
      modifies this
      ensures var a := AccountOf(old(log));
        AccountOf(log) ==
          if lockSlot.Some? then a.(freedSlots := a.freedSlots + [lockSlot.value])
          else if reservation.Some? then a.(freedTokens := a.freedTokens + [reservation.value])
          else a
      ensures LeaseAfter(old(log)).Some? ==> LeaseAfter(log) == LeaseAfter(old(log))
    {
      raised := false;
      if lockSlot.Some? {
        Record(SlotReleased(lockSlot.value));
        raised := Await();
      } else if reservation.Some? {
        Record(ReservationsReleased([reservation.value]));
        raised := Await();
      }
    }

    method ReleaseCapacity(capacitySlot: Option<nat>, releaseCapacity: bool) returns (raised: bool)
      modifies this
      ensures var a := AccountOf(old(log));
        AccountOf(log) ==
          if capacitySlot.Some? && releaseCapacity then a.(freedCapacity := a.freedCapacity + [capacitySlot.value])
          else a
      ensures LeaseAfter(old(log)).Some? ==>
        if capacitySlot.Some? && releaseCapacity
        then LeaseAfter(log) == LeaseStep(LeaseAfter(old(log)).value, CapacityReleased(capacitySlot.value))
        else LeaseAfter(log) == LeaseAfter(old(log))
    {
      raised := false;
      if capacitySlot.Some? && releaseCapacity {
        Record(CapacityReleased(capacitySlot.value));
        raised := Await();
      }
    }
  }

  // ---------------------------------------------------------------- the dispatcher

  class Dispatcher {
    var released: seq<nat>          // tokens of all release calls
    ghost var accepted: set<nat>    // tokens whose spawn call the platform accepted

    constructor ()
      ensures released == [] && accepted == {}
    {
      released, accepted := [], {};
    }

    method Await() returns (raised: bool) {
      if * { raised := true; } else { raised := false; }
    }

    /**
      Launch every reservation at once; `ok[i]` when the call of `tokens[i]` returned.  A call
      that raised, or a gather that was cancelled, may still have been accepted.
     */
    method Gather(tokens: seq<nat>) returns (raised: bool, ok: seq<bool>)
      modifies this`accepted
      ensures !raised ==> |ok| == |tokens|
      ensures !raised ==> forall i :: 0 <= i < |tokens| && ok[i] ==> tokens[i] in accepted
    {
      ok := [];
      for i := 0 to |tokens|
        invariant |ok| == i && forall j :: 0 <= j < i && ok[j] ==> tokens[j] in accepted
      {
        if * {
          return true, [];
        }
        var returned := *;
        if * {
          accepted := accepted + {tokens[i]};
        } else {
          returned := false;
        }
        ok := ok + [returned];
      }
      raised := false;
    }

    method ReleaseReservations(tokens: seq<nat>) returns (raised: bool)
      modifies this`released
      ensures released == old(released) + tokens
    {
      released := released + tokens;
      raised := Await();
    }

    /** The tokens whose launch failed. */
    static function Failed(tokens: seq<nat>, ok: seq<bool>): (r: seq<nat>)
      requires |tokens| == |ok|
      ensures forall t :: t in r <==> exists i :: 0 <= i < |tokens| && tokens[i] == t && !ok[i]
    {
      if tokens == [] then []
      else
        var n := |tokens| - 1;
        assert forall i :: 0 <= i < n ==> tokens[..n][i] == tokens[i] && ok[..n][i] == ok[i];
        Failed(tokens[..n], ok[..n]) + (if ok[n] then [] else [tokens[n]])
    }

    /** Reserve launches: tokens, or an exception. */
    method Reserve() returns (raised: bool, tokens: seq<nat>)
      ensures raised ==> tokens == []
      ensures forall i, j :: 0 <= i < j < |tokens| ==> tokens[i] != tokens[j]
    {
      if * {
        return true, [];
      }
      tokens := [];
      var n: int :| 0 <= n;
      for i := 0 to n
        invariant |tokens| == i && forall j :: 0 <= j < i ==> tokens[j] == j
      {
        tokens := tokens + [i];
      }
      raised := false;
    }

    /** The try block: the reservations it saw, and the launch results if all became known. */
    method CycleBody() returns (exit: Exit, reservations: seq<nat>, results: Option<seq<bool>>)
      requires released == []
      modifies this
      ensures forall i, j :: 0 <= i < j < |reservations| ==> reservations[i] != reservations[j]
      ensures results.None? ==> released == []
      ensures results.Some? ==> |results.value| == |reservations|
      ensures results.Some? ==> released == Failed(reservations, results.value)
      ensures results.Some? ==> forall i :: 0 <= i < |reservations| && results.value[i] ==> reservations[i] in accepted
    {
      reservations, results := [], None;
      var raised := Await();                               // storage paths, held capacity counts
      if raised {
        return Raised, reservations, results;
      }
      raised, reservations := Reserve();
      if raised {
        return Raised, reservations, results;
      }
      raised := Await();                                   // record the planned launches
      if raised {
        return Raised, reservations, results;
      }
      if reservations == [] {
        return Returned, reservations, results;
      }
      raised := Await();                                   // select a function for each reservation
      if raised {
        return Raised, reservations, results;
      }
      var ok;
      raised, ok := Gather(reservations);
      if raised {
        return Raised, reservations, results;
      }
      results := Some(ok);
      var failed := Failed(reservations, ok);
      raised := ReleaseReservations(failed);
      exit := if raised || failed != [] then Raised else Returned;
    }

    /**
      One dispatch cycle.  On every exit path each token it reserved ends in an accepted launch
      or in a release call; a token whose launch call returned is never released once all
      launches are known, and before that every token is.
     */
    method PollQueue() returns (exit: Exit, reservations: seq<nat>, results: Option<seq<bool>>)
      requires released == []
      modifies this
      ensures forall t :: t in reservations ==> t in accepted || t in released
      ensures results.None? ==> released == reservations
      ensures results.Some? ==>
        && |results.value| == |reservations|
        && forall i :: 0 <= i < |reservations| ==> (reservations[i] in released <==> !results.value[i])
    {
      exit, reservations, results := CycleBody();
      if results.None? {
        // A failure of this call is only logged: the leases expire.
        var raised := ReleaseReservations(reservations);
      }
    }
  }

  // ---------------------------------------------------------------- many workers, one capacity store

  /** The capacity store's leases by slot, and each worker's log. */
  datatype Fleet = Fleet(held: map<nat, nat>, logs: map<nat, seq<Event>>)

  datatype FleetEvent =
    | Does(worker: nat, event: Event)
    | Drops(slot: nat)       // a release that took effect
    | Reconciles(slot: nat)  // the lease of an owner found terminal, its sandbox gone

  function LogOf(f: Fleet, w: nat): seq<Event> {
    if w in f.logs then f.logs[w] else []
  }

  function LeaseOf(f: Fleet, w: nat): Option<Lease> {
    LeaseAfter(LogOf(f, w))
  }

  /** Worker `w` runs, or ran without a normal return, a job under a capacity lease. */
  predicate Live(f: Fleet, w: nat) {
    LeaseOf(f, w).Some? && LeaseOf(f, w).value.InUse?
  }

  /**
    One event.  The store grants a free slot below the limit and forgets a lease only when its
    owner asked for it, or was reconciled once its sandbox was gone; `gone` are those workers.
   */
  predicate FleetStep(f: Fleet, gone: set<nat>, e: FleetEvent, f': Fleet, gone': set<nat>, limit: nat) {
    match e
    case Does(w, event) =>
      && w !in gone && gone' == gone
      && LeaseAfter(LogOf(f, w) + [event]).Some?
      && f'.logs == f.logs[w := LogOf(f, w) + [event]]
      && (if event.CapacityAcquired? then
            event.slot < limit && event.slot !in f.held && f'.held == f.held[event.slot := w]
          else f'.held == f.held)
    case Drops(slot) =>
      && gone' == gone && f'.logs == f.logs && slot in f.held
      && LeaseOf(f, f.held[slot]) == Some(GivenBack) && f'.held == f.held - {slot}
    case Reconciles(slot) =>
      && slot in f.held && gone' == gone + {f.held[slot]}
      && f'.logs == f.logs && f'.held == f.held - {slot}
  }

  ghost predicate IsFleetRun(
      fleets: seq<Fleet>, gone: seq<set<nat>>, events: seq<FleetEvent>, limit: nat)
  {
    && |fleets| == |events| + 1 == |gone|
    && fleets[0] == Fleet(map[], map[]) && gone[0] == {}
    && forall i :: 0 <= i < |events| ==> FleetStep(fleets[i], gone[i], events[i], fleets[i + 1], gone[i + 1], limit)
  }

  /** A worker that may have a lease has it, unless it was reconciled. */
  ghost predicate FleetInv(f: Fleet, gone: set<nat>, limit: nat) {
    && (forall s :: s in f.held ==> s < limit)
    && (forall w :: w in f.logs ==> LeaseOf(f, w).Some?)
    && (forall w :: w in f.logs && w !in gone ==> Covered(f, w))
  }

  /** The lease worker `w` may have is held for it. */
  ghost predicate Covered(f: Fleet, w: nat) {
    LeaseOf(f, w).Some? &&
      var l := LeaseOf(f, w).value;
      l.Leased? || l.InUse? || l.Finished? ==> l.slot in f.held && f.held[l.slot] == w
  }

  lemma FleetStepKeepsInv(f: Fleet, gone: set<nat>, e: FleetEvent, f': Fleet, gone': set<nat>, limit: nat)
    requires FleetInv(f, gone, limit) && FleetStep(f, gone, e, f', gone', limit)
    ensures FleetInv(f', gone', limit)
  {
    if e.Does? {
      DoesKeepsInv(f, gone, e, f', limit);
    } else {
      forall w ensures LeaseOf(f', w) == LeaseOf(f, w) {}
    }
  }

  lemma DoesKeepsInv(f: Fleet, gone: set<nat>, e: FleetEvent, f': Fleet, limit: nat)
    requires FleetInv(f, gone, limit) && e.Does? && FleetStep(f, gone, e, f', gone, limit)
    ensures FleetInv(f', gone, limit)
  {
    var w := e.worker;
    LogGrows(LogOf(f, w), e.event);
    StepCovered(f, f', w, e.event, limit);
    forall v | v in f'.logs && v != w ensures LeaseOf(f', v) == LeaseOf(f, v) {}
    forall v | v in f'.logs && v !in gone && v != w ensures Covered(f', v) {
      assert Covered(f, v);
      OthersCovered(f, f', v, w, e.event);
    }
  }

  lemma OthersCovered(f: Fleet, f': Fleet, v: nat, w: nat, e: Event)
    requires v != w && Covered(f, v) && LeaseOf(f', v) == LeaseOf(f, v)
    requires if e.CapacityAcquired? then e.slot !in f.held && f'.held == f.held[e.slot := w] else f'.held == f.held
    ensures Covered(f', v)
  {
  }

  lemma StepCovered(f: Fleet, f': Fleet, w: nat, e: Event, limit: nat)
    requires w in f.logs ==> Covered(f, w)
    requires LeaseOf(f, w).Some? && LeaseOf(f', w) == LeaseStep(LeaseOf(f, w).value, e) && LeaseOf(f', w).Some?
    requires if e.CapacityAcquired? then f'.held == f.held[e.slot := w] else f'.held == f.held
    ensures Covered(f', w)
  {
  }

  lemma {:induction false} FleetRunKeepsInv(
      fleets: seq<Fleet>, gone: seq<set<nat>>, events: seq<FleetEvent>, limit: nat, i: nat)
    requires IsFleetRun(fleets, gone, events, limit) && i < |fleets|
    ensures FleetInv(fleets[i], gone[i], limit)
  {
    if i > 0 {
      FleetRunKeepsInv(fleets, gone, events, limit, i - 1);
      assert FleetStep(fleets[i - 1], gone[i - 1], events[i - 1], fleets[i - 1 + 1], gone[i - 1 + 1], limit);
      FleetStepKeepsInv(fleets[i - 1], gone[i - 1], events[i - 1], fleets[i], gone[i], limit);
    }
  }

  /** The workers of the fleet whose sandbox may be live. */
  function LiveWorkers(f: Fleet, gone: set<nat>): set<nat> {
    set w | w in f.logs && w !in gone && Live(f, w)
  }

  lemma {:induction false} DistinctSlotsBelow(ws: set<nat>, slot: nat -> nat, limit: nat)
    requires forall w :: w in ws ==> slot(w) < limit
    requires forall v, w :: v in ws && w in ws && slot(v) == slot(w) ==> v == w
    ensures |ws| <= limit
  {
    if w :| w in ws && slot(w) == limit - 1 {
      DistinctSlotsBelow(ws - {w}, slot, limit - 1);
      assert ws == (ws - {w}) + {w};
    } else if limit > 0 {
      DistinctSlotsBelow(ws, slot, limit - 1);
    } else {
      assert ws == {};
    }
  }

  /**
    In every interleaving of workers that follow the discipline, each sandbox that may still be
    live is covered by a lease held for its worker, and live sandboxes never exceed the limit.
   */
  lemma LiveSandboxesAreCovered(
      fleets: seq<Fleet>, gone: seq<set<nat>>, events: seq<FleetEvent>, limit: nat, i: nat)
    requires IsFleetRun(fleets, gone, events, limit) && i < |fleets|
    ensures forall w :: w in LiveWorkers(fleets[i], gone[i]) ==>
      var s := LeaseOf(fleets[i], w).value.slot;
      s in fleets[i].held && fleets[i].held[s] == w
    ensures |LiveWorkers(fleets[i], gone[i])| <= limit
  {
    FleetRunKeepsInv(fleets, gone, events, limit, i);
    var f := fleets[i];
    assert forall w :: w in LiveWorkers(f, gone[i]) ==> Covered(f, w);
    var slot: nat -> nat := w => if Live(f, w) then LeaseOf(f, w).value.slot else 0;
    DistinctSlotsBelow(LiveWorkers(f, gone[i]), slot, limit);
  }
}
