/**
  Crash-safe discovery: scanners put each shard's trials and then a done marker on one queue; a
  single writer batches the trials into the ledger and records a shard only after flushing.
  A crash loses the queue, the batch and the scanners, and keeps the two tables.
 */
module LegacyDiscover {
  import opened Sets

  datatype Message = Trial(prefix: string) | ShardDone(shard: nat) | Stop

  /** The trials a full scan of each shard emits, in order. */
  type Bucket = map<nat, seq<string>>

  const BATCH_LIMIT: nat := 5000

  function TrialsIn(queue: seq<Message>): set<string> {
    set m | m in queue && m.Trial? :: m.prefix
  }

  function AllTrials(bucket: Bucket): set<string> {
    set s, x | s in bucket && x in bucket[s] :: x
  }

  /** Trials in the ledger, or on their way to it ahead of queue position `n`. */
  function Secured(ledger: set<string>, batch: seq<string>, queue: seq<Message>, n: nat): set<string>
    requires n <= |queue|
  {
    ledger + Elements(batch) + TrialsIn(queue[..n])
  }

  lemma ElementsGrow(xs: seq<string>, x: string)
    ensures Elements(xs + [x]) == Elements(xs) + {x}
  {
    assert x in xs + [x];
    forall y | y in xs ensures y in xs + [x] {}
  }

  lemma PutGrows(ledger: set<string>, batch: seq<string>, queue: seq<Message>, m: Message)
    ensures forall n: nat :: n <= |queue| ==> Secured(ledger, batch, queue + [m], n) == Secured(ledger, batch, queue, n)
    ensures Secured(ledger, batch, queue + [m], |queue| + 1)
            == Secured(ledger, batch, queue, |queue|) + (if m.Trial? then {m.prefix} else {})
  {
    forall n: nat | n <= |queue| ensures (queue + [m])[..n] == queue[..n] {}
    assert (queue + [m])[..|queue| + 1] == queue + [m] && queue[..|queue|] == queue;
    assert m in queue + [m];
    assert TrialsIn(queue + [m]) == TrialsIn(queue) + (if m.Trial? then {m.prefix} else {}) by {
      forall k | k in queue ensures k in queue + [m] {}
    }
  }

  /** Taking the head into the batch secures no less ahead of any later position. */
  lemma TakeTrial(ledger: set<string>, batch: seq<string>, queue: seq<Message>, n: nat)
    requires queue != [] && queue[0].Trial? && 1 <= n <= |queue|
    ensures Secured(ledger, batch + [queue[0].prefix], queue[1..], n - 1) == Secured(ledger, batch, queue, n)
  {
    assert queue[..n] == [queue[0]] + queue[1..][..n - 1];
    ElementsGrow(batch, queue[0].prefix);
    assert TrialsIn(queue[..n]) == {queue[0].prefix} + TrialsIn(queue[1..][..n - 1]);
  }

  lemma TakeOther(ledger: set<string>, batch: seq<string>, queue: seq<Message>, n: nat)
    requires queue != [] && !queue[0].Trial? && 1 <= n <= |queue|
    ensures Secured(ledger, batch, queue[1..], n - 1) == Secured(ledger, batch, queue, n)
  {
    assert queue[..n] == [queue[0]] + queue[1..][..n - 1];
    assert TrialsIn(queue[..n]) == TrialsIn(queue[1..][..n - 1]);
  }

  /** What a cut-short insert leaves behind was on its way already. */
  lemma InsertSecures(ledger: set<string>, batch: seq<string>, queue: seq<Message>, inserted: set<string>)
    requires inserted <= Elements(batch)
    ensures Secured(ledger + inserted, [], [], 0) == ledger + inserted <= Secured(ledger, batch, queue, |queue|)
  {
  }

  class Discovery {
    const bucket: Bucket
    // The two tables, which survive a crash.
    var ledger: set<string>
    var done: set<nat>
    // One run: the queue, the writer's batch, and how far each scanner has emitted.
    var queue: seq<Message>
    var batch: seq<string>
    var emitted: map<nat, nat>
    var marked: set<nat>
    var finished: bool
    ghost const initial: set<string>

    ghost predicate Valid()
      reads this
    {
      && Tables() && Scanners() && Markers() && Ending()
    }

    /** A recorded shard has all its trials in the ledger, and nothing but trials is in it. */
    ghost predicate Tables()
      reads this
    {
      && done <= bucket.Keys && (forall s :: s in done ==> Elements(bucket[s]) <= ledger)
      && initial <= ledger && Secured(ledger, batch, queue, |queue|) <= initial + AllTrials(bucket)
    }

    ghost predicate Scanners()
      reads this
    {
      && emitted.Keys <= bucket.Keys && marked <= emitted.Keys && bucket.Keys <= done + emitted.Keys
      && (forall s :: s in emitted ==>
            emitted[s] <= |bucket[s]| && Elements(bucket[s][..emitted[s]]) <= Secured(ledger, batch, queue, |queue|))
      && (forall s :: s in marked ==> emitted[s] == |bucket[s]|)
    }

    /** A marker stands behind all trials of its shard. */
    ghost predicate Markers()
      reads this
    {
      forall i :: 0 <= i < |queue| && queue[i].ShardDone? ==>
        queue[i].shard in bucket && Elements(bucket[queue[i].shard]) <= Secured(ledger, batch, queue, i)
    }

    ghost predicate Ending()
      reads this
    {
      && (forall i :: 0 <= i < |queue| && queue[i].Stop? ==> i == |queue| - 1)
      && (Stop in queue || finished ==> emitted.Keys <= marked)
      && (finished ==> queue == [] && batch == [])
    }

    constructor (bucket: Bucket, ledger: set<string>)
      ensures Valid() && this.bucket == bucket && this.ledger == ledger && done == {} && initial == ledger
      ensures !finished
    {
      this.bucket, this.ledger, done := bucket, ledger, {};
      queue, batch, marked, finished := [], [], {}, false;
      emitted := map s | s in bucket :: 0;
      initial := ledger;
    }

    method Put(m: Message)
      requires Stop !in queue
      modifies this`queue
      ensures queue == old(queue) + [m]
      ensures forall n: nat :: n <= old(|queue|) ==>
        Secured(ledger, batch, queue, n) == Secured(ledger, batch, old(queue), n)
      ensures Secured(ledger, batch, queue, |queue|)
              == Secured(ledger, batch, old(queue), old(|queue|)) + (if m.Trial? then {m.prefix} else {})
    {
      PutGrows(ledger, batch, queue, m);
      queue := queue + [m];
    }

    /** A scanner emits its next trial. */
    method Emit(s: nat)
      requires Valid() && s in emitted && emitted[s] < |bucket[s]| && Stop !in queue && !finished
      modifies this`queue, this`emitted
      ensures Valid()
    {
      var x := bucket[s][emitted[s]];
      assert s in bucket && x in bucket[s];
      assert bucket[s][..emitted[s] + 1] == bucket[s][..emitted[s]] + [x];
      ElementsGrow(bucket[s][..emitted[s]], x);
      Put(Trial(x));
      emitted := emitted[s := emitted[s] + 1];
    }

    /** A scanner that emitted everything puts the marker of its shard. */
    method Mark(s: nat)
      requires Valid() && s in emitted && s !in marked && emitted[s] == |bucket[s]| && Stop !in queue && !finished
      modifies this`queue, this`marked
      ensures Valid()
    {
      assert bucket[s][..emitted[s]] == bucket[s];
      Put(ShardDone(s));
      marked := marked + {s};
    }

    /** All scanners are through. */
    method PutStop()
      requires Valid() && emitted.Keys <= marked && Stop !in queue && !finished
      modifies this`queue
      ensures Valid()
    {
      Put(Stop);
    }

    /** Insert the batch; `ON CONFLICT DO NOTHING` makes the ledger a set of prefixes. */
    method Flush()
      requires Valid() && !finished
      modifies this`ledger, this`batch
      ensures Valid() && batch == [] && ledger == old(ledger) + Elements(old(batch))
    {
      assert forall n: nat :: n <= |queue| ==>
        Secured(ledger + Elements(batch), [], queue, n) == Secured(ledger, batch, queue, n);
      ledger := ledger + Elements(batch);
      batch := [];
    }

    method TakeTrialMessage()
      requires Valid() && queue != [] && queue[0].Trial? && !finished
      modifies this`queue, this`batch
      ensures Valid() && !finished
    {
      forall n: nat | 1 <= n <= |queue|
        ensures Secured(ledger, batch + [queue[0].prefix], queue[1..], n - 1) == Secured(ledger, batch, queue, n)
      {
        TakeTrial(ledger, batch, queue, n);
      }
      batch := batch + [queue[0].prefix];
      queue := queue[1..];
    }

    /** Behind a flush, the marker's shard is recorded. */
    method RecordShard()
      requires Valid() && queue != [] && queue[0].ShardDone? && batch == [] && !finished
      modifies this`queue, this`done
      ensures Valid()
    {
      assert Elements(bucket[queue[0].shard]) <= Secured(ledger, batch, queue, 0);
      forall n: nat | 1 <= n <= |queue|
        ensures Secured(ledger, batch, queue[1..], n - 1) == Secured(ledger, batch, queue, n)
      {
        TakeOther(ledger, batch, queue, n);
      }
      done := done + {queue[0].shard};
      queue := queue[1..];
    }

    method Finish()
      requires Valid() && queue != [] && queue[0].Stop? && batch == [] && !finished
      modifies this`queue, this`finished
      ensures Valid() && finished
    {
      assert Stop in queue && |queue| == 1;
      TakeOther(ledger, batch, queue, 1);
      queue := [];
      finished := true;
    }

    /** The writer handles one message; it may crash between the flush and the shard's record. */
    method WriterStep()
      requires Valid() && queue != [] && !finished
      modifies this
      ensures Valid()
    {
      match queue[0]
      case Trial(_) =>
        TakeTrialMessage();
        if |batch| >= BATCH_LIMIT {
          Flush();
        }
      case ShardDone(shard) =>
        Flush();
        if * {
          Crash({});
        } else {
          RecordShard();
        }
      case Stop =>
        Flush();
        if * {
          Crash({});
        } else {
          Finish();
        }
    }

    /** A crash, perhaps in the middle of an insert of part of the batch; then a new run resumes. */
    method Crash(inserted: set<string>)
      requires Valid() && inserted <= Elements(batch)
      modifies this
      ensures Valid() && !finished && done == old(done) && old(ledger) <= ledger
    {
      InsertSecures(ledger, batch, queue, inserted);
      ledger := ledger + inserted;
      queue, batch, marked, finished := [], [], {}, false;
      emitted := map s | s in bucket && s !in done :: 0;
    }

    /**
      Any interleaving of the scanners with the writer, and any number of crashes and resumes.
      At every moment a shard recorded as done has all its trials in the ledger; once a run
      finishes, the ledger is what it was at first and the trials of all shards, nothing else.
     */
    method Run(steps: nat)
      requires Valid()
      modifies this
      ensures Valid()
      ensures forall s :: s in done ==> Elements(bucket[s]) <= ledger
      ensures finished ==> ledger == initial + AllTrials(bucket)
    {
      for i := 0 to steps
        invariant Valid()
      {
        if
        case true =>
          assert {} <= Elements(batch);
          var inserted :| inserted <= Elements(batch);
          Crash(inserted);
        case !finished && queue != [] =>
          WriterStep();
        case !finished && Stop !in queue && emitted.Keys <= marked =>
          PutStop();
        case !finished && Stop !in queue && !(emitted.Keys <= marked) =>
          var s :| s in emitted && s !in marked;
          if emitted[s] < |bucket[s]| {
            Emit(s);
          } else {
            Mark(s);
          }
      }
      if finished {
        FinishedIsComplete();
      }
    }

    lemma FinishedIsComplete()
      requires Valid() && finished
      ensures ledger == initial + AllTrials(bucket)
    {
      assert Secured(ledger, batch, queue, |queue|) == ledger;
      forall s, x | s in bucket && x in bucket[s] ensures x in ledger {
        if s !in done {
          assert bucket[s][..emitted[s]] == bucket[s];
        }
        assert x in Elements(bucket[s]);
      }
    }
  }
}
