/**
 The worker loop of adapters/persistence/queue.py against an ideal clock: a timed get returns
 within its timeout, and everything between two gets takes no time.
 */
module QueueWorker {
  import opened Wrappers

  /** What one timed get brings: a record (or an enqueued None) after `wait`, or a timeout. */
  datatype Observed = Got(record: Option<int>, wait: real) | Empty

  datatype Batch = Batch(records: seq<int>, openedAt: real, flushedAt: real)

  /** The loop's locals; `openedAt` is when the current batch got its first record. */
  datatype Worker = Worker(batch: seq<int>, deadline: Option<real>, openedAt: real, clock: real, flushes: seq<Batch>)

  const POLL: real := 0.25

  function WaitFor(w: Worker, latency: real): real {
    if w.batch != [] then latency else POLL
  }

  /** A get never overruns its timeout, and reports Empty only when it is over. */
  predicate InTime(w: Worker, latency: real, o: Observed) {
    o.Got? ==> 0.0 <= o.wait <= WaitFor(w, latency)
  }

  /** A full batch, or an overdue one. */
  predicate ShouldFlush(batch: seq<int>, deadline: Option<real>, now: real, batchSize: nat) {
    batch != [] && (|batch| >= batchSize || (deadline.Some? && now >= deadline.value))
  }

  /** One round of the loop. */
  function Round(w: Worker, batchSize: nat, latency: real, o: Observed): Worker {
    var now := w.clock + if o.Got? then o.wait else WaitFor(w, latency);
    var next :=
      if o.Got? && o.record.Some? then
        if w.batch == []
        then w.(batch := w.batch + [o.record.value], deadline := Some(now + latency), openedAt := now, clock := now)
        else w.(batch := w.batch + [o.record.value], clock := now)
      else w.(clock := now);
    if ShouldFlush(next.batch, next.deadline, now, batchSize)
    then next.(batch := [], deadline := None, flushes := next.flushes + [Batch(next.batch, next.openedAt, now)])
    else next
  }

  function Rounds(w: Worker, batchSize: nat, latency: real, os: seq<Observed>): Worker {
    if os == [] then w
    else Round(Rounds(w, batchSize, latency, os[..|os| - 1]), batchSize, latency, os[|os| - 1])
  }

  lemma RoundsSnoc(w: Worker, batchSize: nat, latency: real, os: seq<Observed>, o: Observed)
    ensures Rounds(w, batchSize, latency, os + [o]) == Round(Rounds(w, batchSize, latency, os), batchSize, latency, o)
  {
    assert (os + [o])[..|os + [o]| - 1] == os;
  }

  ghost predicate Ideal(w: Worker, batchSize: nat, latency: real, os: seq<Observed>) {
    forall i :: 0 <= i < |os| ==> InTime(Rounds(w, batchSize, latency, os[..i]), latency, os[i])
  }

  function Start(clock: real): Worker {
    Worker([], None, clock, clock, [])
  }

  // ---------- the deadline ----------

  ghost predicate Timely(w: Worker, batchSize: nat, latency: real) {
    && |w.batch| < batchSize
    && (w.batch != [] ==> w.deadline == Some(w.openedAt + latency) && w.openedAt <= w.clock < w.openedAt + latency)
    && forall f :: f in w.flushes ==>
         && 0 < |f.records| <= batchSize
         && f.openedAt <= f.flushedAt < f.openedAt + 2.0 * latency
  }

  lemma TimelyRound(w: Worker, batchSize: nat, latency: real, o: Observed)
    requires Timely(w, batchSize, latency) && latency > 0.0 && InTime(w, latency, o)
    ensures Timely(Round(w, batchSize, latency, o), batchSize, latency)
  {
  }

  /** Whatever arrives and whenever, every batch is flushed less than twice the latency after
      its first record was taken, and a batch still open is not overdue. */
  lemma {:induction false} FlushedBeforeTwiceTheLatency(clock: real, batchSize: nat, latency: real, os: seq<Observed>)
    requires batchSize > 0 && latency > 0.0 && Ideal(Start(clock), batchSize, latency, os)
    ensures Timely(Rounds(Start(clock), batchSize, latency, os), batchSize, latency)
  {
    if os != [] {
      var front := os[..|os| - 1];
      forall i | 0 <= i < |front| ensures InTime(Rounds(Start(clock), batchSize, latency, front[..i]), latency, front[i]) {
        assert front[..i] == os[..i];
      }
      FlushedBeforeTwiceTheLatency(clock, batchSize, latency, front);
      TimelyRound(Rounds(Start(clock), batchSize, latency, front), batchSize, latency, os[|os| - 1]);
    }
  }

  /** A round that brings a record or runs into the timeout; an enqueued None does neither. */
  predicate Busy(o: Observed) {
    o.Got? ==> o.record.Some? && o.wait >= 0.0
  }

  ghost predicate OpenFor(w: Worker, batchSize: nat, latency: real, now: Worker, k: nat) {
    && now.flushes == w.flushes && w.batch <= now.batch && |now.batch| == |w.batch| + k < batchSize
    && now.deadline == Some(now.openedAt + latency) && now.openedAt <= now.clock
  }

  ghost predicate FlushedFrom(w: Worker, now: Worker) {
    |now.flushes| > |w.flushes| && w.batch <= now.flushes[|w.flushes|].records
  }

  /** An open batch is flushed within batchSize - |batch| busy rounds: each one either lets the
      deadline pass or fills the batch by one record. */
  lemma OpenBatchIsFlushed(w: Worker, batchSize: nat, latency: real, os: seq<Observed>)
    requires w.batch != [] && OpenFor(w, batchSize, latency, w, 0)
    requires forall o :: o in os ==> Busy(o)
    requires |os| >= batchSize - |w.batch|
    ensures FlushedFrom(w, Rounds(w, batchSize, latency, os))
  {
    OpenOrFlushed(w, batchSize, latency, os);
  }

  lemma {:induction false} OpenOrFlushed(w: Worker, batchSize: nat, latency: real, os: seq<Observed>)
    requires w.batch != [] && OpenFor(w, batchSize, latency, w, 0)
    requires forall o :: o in os ==> Busy(o)
    ensures var now := Rounds(w, batchSize, latency, os);
      OpenFor(w, batchSize, latency, now, |os|) || FlushedFrom(w, now)
  {
    if os != [] {
      assert os[|os| - 1] in os;
      OpenOrFlushed(w, batchSize, latency, os[..|os| - 1]);
    }
  }

  // ---------- not before its time ----------

  /** A batch was full when it was flushed, or its first record had waited for the latency. */
  predicate Due(f: Batch, batchSize: nat, latency: real) {
    |f.records| == batchSize || f.flushedAt >= f.openedAt + latency
  }

  ghost predicate Patient(w: Worker, batchSize: nat, latency: real) {
    && |w.batch| < batchSize && (w.batch != [] ==> w.deadline == Some(w.openedAt + latency))
    && forall i :: 0 <= i < |w.flushes| ==> Due(w.flushes[i], batchSize, latency)
  }

  lemma PatientRound(w: Worker, batchSize: nat, latency: real, o: Observed)
    requires Patient(w, batchSize, latency)
    ensures Patient(Round(w, batchSize, latency, o), batchSize, latency)
  {
  }

  /** The loop never flushes a batch that is neither full nor old enough, whatever the clock does. */
  lemma {:induction false} FlushedOnlyWhenDue(clock: real, batchSize: nat, latency: real, os: seq<Observed>)
    requires batchSize > 0
    ensures Patient(Rounds(Start(clock), batchSize, latency, os), batchSize, latency)
  {
    if os != [] {
      FlushedOnlyWhenDue(clock, batchSize, latency, os[..|os| - 1]);
      PatientRound(Rounds(Start(clock), batchSize, latency, os[..|os| - 1]), batchSize, latency, os[|os| - 1]);
    }
  }

  /** A round lasts no longer than the latency, or a quarter of a second while no batch is open; so
      a stop is noticed in that time. */
  lemma RoundIsShort(w: Worker, batchSize: nat, latency: real, o: Observed)
    requires InTime(w, latency, o)
    ensures w.clock <= Round(w, batchSize, latency, o).clock || latency < 0.0
    ensures Round(w, batchSize, latency, o).clock <= w.clock + if w.batch != [] then latency else 0.25
  {
  }

  // ---------- order ----------

  function Taken(o: Observed): seq<int> {
    if o.Got? && o.record.Some? then [o.record.value] else []
  }

  function Records(os: seq<Observed>): seq<int> {
    if os == [] then [] else Records(os[..|os| - 1]) + Taken(os[|os| - 1])
  }

  function FlushedRecords(flushes: seq<Batch>): seq<int> {
    if flushes == [] then [] else FlushedRecords(flushes[..|flushes| - 1]) + flushes[|flushes| - 1].records
  }

  function Collected(w: Worker): seq<int> {
    FlushedRecords(w.flushes) + w.batch
  }

  lemma RoundKeepsOrder(w: Worker, batchSize: nat, latency: real, o: Observed)
    ensures Collected(Round(w, batchSize, latency, o)) == Collected(w) + Taken(o)
  {
    var r := Round(w, batchSize, latency, o);
    if r.flushes != w.flushes {
      assert r.flushes[..|r.flushes| - 1] == w.flushes;
    }
  }

  /** The flushed batches and the open one are exactly the records taken, in order. */
  lemma {:induction false} BatchesKeepOrder(clock: real, batchSize: nat, latency: real, os: seq<Observed>)
    ensures Collected(Rounds(Start(clock), batchSize, latency, os)) == Records(os)
  {
    if os != [] {
      BatchesKeepOrder(clock, batchSize, latency, os[..|os| - 1]);
      RoundKeepsOrder(Rounds(Start(clock), batchSize, latency, os[..|os| - 1]), batchSize, latency, os[|os| - 1]);
    }
  }

  // ---------- the loop ----------

  /** The body of the loop: take what the get brings, flush a full or overdue batch. */
  method LoopBody(batchSize: nat, latency: real, w: Worker, o: Observed) returns (next: Worker)
    ensures next == Round(w, batchSize, latency, o)
  {
    var batch, batchDeadline, flushes := w.batch, w.deadline, w.flushes;
    var now, openedAt := w.clock, w.openedAt;  // openedAt is only recorded, the loop never reads it
    var timeout := if batch != [] then latency else POLL;
    var record: Option<int> := None;
    match o {
      case Got(r, wait) => record, now := r, now + wait;
      case Empty => now := now + timeout;
    }
    if record.Some? {
      if batch == [] {
        batchDeadline, openedAt := Some(now + latency), now;
      }
      batch := batch + [record.value];
    }
    if ShouldFlush(batch, batchDeadline, now, batchSize) {
      flushes := flushes + [Batch(batch, openedAt, now)];
      batch := [];
      batchDeadline := None;
    }
    next := Worker(batch, batchDeadline, openedAt, now, flushes);
  }

  /** The loop of _run, until stop is seen after the observed rounds. */
  method Loop(batchSize: nat, latency: real, clock: real, os: seq<Observed>) returns (w: Worker)
    ensures w == Rounds(Start(clock), batchSize, latency, os)
  {
    w := Start(clock);
    assert os[..0] == [];
    for i := 0 to |os|
      invariant w == Rounds(Start(clock), batchSize, latency, os[..i])
    {
      assert os[..i + 1] == os[..i] + [os[i]];
      w := LoopBody(batchSize, latency, w, os[i]);
      RoundsSnoc(Start(clock), batchSize, latency, os[..i], os[i]);
    }
    assert os[..|os|] == os;
  }

  /** The loop and the flush of the batch it leaves open: all records taken, in order, in
      batches that are full enough and early enough. */
  method Run(batchSize: nat, latency: real, clock: real, os: seq<Observed>) returns (flushes: seq<Batch>)
    requires batchSize > 0 && latency > 0.0
    requires Ideal(Start(clock), batchSize, latency, os)
    ensures FlushedRecords(flushes) == Records(os)
    ensures forall f :: f in flushes ==>
      0 < |f.records| <= batchSize && f.openedAt <= f.flushedAt < f.openedAt + 2.0 * latency
    ensures forall i :: 0 <= i < |flushes| - 1 ==> Due(flushes[i], batchSize, latency)
  {
    var w := Loop(batchSize, latency, clock, os);
    FlushedBeforeTwiceTheLatency(clock, batchSize, latency, os);
    FlushedOnlyWhenDue(clock, batchSize, latency, os);
    BatchesKeepOrder(clock, batchSize, latency, os);
    flushes := w.flushes;
    if w.batch != [] {
      assert (flushes + [Batch(w.batch, w.openedAt, w.clock)])[..|flushes|] == flushes;
      flushes := flushes + [Batch(w.batch, w.openedAt, w.clock)];
    }
  }
}
