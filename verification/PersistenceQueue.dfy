/**
 The batching queue of adapters/persistence/queue.py as a protocol: producers, one worker, any
 number of flush_now callers and stop take atomic steps in any interleaving.
 */
module PersistenceQueue {

  /** An accepted record; tickets number the acceptances. `none` marks a record that is None. */
  datatype Item = Item(ticket: nat, none: bool)

  datatype Flush = Flush(byWorker: bool, items: seq<Item>)

  datatype Phase = AtHead | Waiting | Exiting | Draining | Done

  datatype Config = Config(batchSize: nat, maxsize: int)

  /** `held[t]` is what flush_now call t has taken so far; `ignored` are the None records that
      the worker's loop took for a timeout. */
  datatype State = State(
    queue: seq<Item>, batch: seq<Item>, phase: Phase, held: seq<seq<Item>>, flushed: seq<Flush>,
    ignored: seq<Item>, accepted: seq<Item>, dropped: nat, processed: nat, stopping: bool)

  datatype Event =
    | Put(none: bool, block: bool)
    | Check
    | Receive(overdue: bool)
    | Timeout(overdue: bool)
    | ExitFlush
    | DrainOne
    | DrainEnd
    | SyncTake(caller: nat)
    | SyncFlush(caller: nat)
    | Stop

  predicate HasRoom(c: Config, s: State) {
    c.maxsize <= 0 || |s.queue| < c.maxsize
  }

  predicate Enabled(c: Config, s: State, e: Event) {
    match e
    case Put(_, block) => block ==> HasRoom(c, s)
    case Check => s.phase == AtHead
    case Receive(_) => s.phase == Waiting && s.queue != []
    case Timeout(_) => s.phase == Waiting
    case ExitFlush => s.phase == Exiting
    case DrainOne => s.phase == Draining && s.queue != []
    case DrainEnd => s.phase == Draining && s.queue == []
    case SyncTake(t) => t < |s.held| && s.queue != []
    case SyncFlush(t) => t < |s.held|
    case Stop => true
  }

  /** _safe_flush: the callable gets the whole batch, whatever it does with it. */
  function Flushed(s: State, byWorker: bool, items: seq<Item>): State {
    s.(flushed := s.flushed + [Flush(byWorker, items)], processed := s.processed + |items|)
  }

  /** The worker takes the head of the queue; a record that is None reads as a timeout. */
  function Taken(s: State): State
    requires s.queue != []
  {
    var head, rest := s.queue[0], s.queue[1..];
    if head.none then s.(queue := rest, ignored := s.ignored + [head])
    else s.(queue := rest, batch := s.batch + [head])
  }

  /** The end of a loop round: flush a full or overdue batch. */
  function RoundEnd(c: Config, s: State, overdue: bool): State {
    var head := s.(phase := AtHead);
    if s.batch != [] && (|s.batch| >= c.batchSize || overdue)
    then Flushed(head, true, s.batch).(batch := [])
    else head
  }

  function After(c: Config, s: State, e: Event): State
    requires Enabled(c, s, e)
  {
    match e
    case Put(none, _) =>
      if HasRoom(c, s)
      then var item := Item(|s.accepted|, none);
           s.(queue := s.queue + [item], accepted := s.accepted + [item])
      else s.(dropped := s.dropped + 1)
    case Check => s.(phase := if s.stopping then Exiting else Waiting)
    case Receive(overdue) => RoundEnd(c, Taken(s), overdue)
    case Timeout(overdue) => RoundEnd(c, s, overdue)
    case ExitFlush =>
      if s.batch != [] then Flushed(s, true, s.batch).(batch := [], phase := Draining)
      else s.(phase := Draining)
    case DrainOne => Flushed(s, true, [s.queue[0]]).(queue := s.queue[1..])
    case DrainEnd => s.(phase := Done)
    case SyncTake(t) => s.(queue := s.queue[1..], held := s.held[t := s.held[t] + [s.queue[0]]])
    case SyncFlush(t) =>
      if s.held[t] != [] then Flushed(s, false, s.held[t]).(held := s.held[t := []]) else s
    case Stop => s.(stopping := true)
  }

  predicate Initial(s: State) {
    && s.queue == s.batch == s.ignored == s.accepted == [] && s.flushed == []
    && s.phase == AtHead && s.dropped == s.processed == 0 && !s.stopping
    && forall t :: 0 <= t < |s.held| ==> s.held[t] == []
  }

  /** The i-th step of a run. */
  ghost predicate IsStep(c: Config, trace: seq<State>, events: seq<Event>, i: nat)
    requires 0 < i <= |events| && |trace| == |events| + 1
  {
    Enabled(c, trace[i - 1], events[i - 1]) && trace[i] == After(c, trace[i - 1], events[i - 1])
  }

  ghost predicate IsRun(c: Config, trace: seq<State>, events: seq<Event>) {
    && |trace| == |events| + 1 && Initial(trace[0]) && c.batchSize > 0
    && forall i :: 0 < i <= |events| ==> IsStep(c, trace, events, i)
  }

  // ---------- conservation ----------

  function Items(fs: seq<Flush>): seq<Item> {
    if fs == [] then [] else Items(fs[..|fs| - 1]) + fs[|fs| - 1].items
  }

  function HeldBag(held: seq<seq<Item>>): multiset<Item> {
    if held == [] then multiset{} else HeldBag(held[..|held| - 1]) + multiset(held[|held| - 1])
  }

  /** All records in the places where an accepted record can be, with multiplicities. */
  function Bag(queue: seq<Item>, batch: seq<Item>, held: seq<seq<Item>>, flushed: seq<Item>, ignored: seq<Item>): multiset<Item> {
    multiset(queue) + multiset(batch) + HeldBag(held) + multiset(flushed) + multiset(ignored)
  }

  ghost predicate Conserved(s: State) {
    && Bag(s.queue, s.batch, s.held, Items(s.flushed), s.ignored) == multiset(s.accepted)
    && (forall x :: x in s.ignored ==> x.none)
    && s.processed == |Items(s.flushed)|
  }

  lemma TakeHead(queue: seq<Item>)
    requires queue != []
    ensures multiset(queue) == multiset{queue[0]} + multiset(queue[1..])
  {
    assert queue == [queue[0]] + queue[1..];
  }

  lemma {:induction false} HeldUpdate(held: seq<seq<Item>>, t: nat, y: seq<Item>)
    requires t < |held|
    ensures HeldBag(held[t := y]) + multiset(held[t]) == HeldBag(held) + multiset(y)
  {
    var n := |held| - 1;
    if t < n {
      HeldUpdate(held[..n], t, y);
      assert held[t := y][..n] == held[..n][t := y];
      AlsoWith(HeldBag(held[..n][t := y]), multiset(held[t]), HeldBag(held[..n]), multiset(y), multiset(held[n]));
    } else {
      assert held[t := y][..n] == held[..n];
      AlsoWith(multiset(y), multiset(held[t]), multiset(held[t]), multiset(y), HeldBag(held[..n]));
    }
  }

  lemma AlsoWith<T>(a: multiset<T>, b: multiset<T>, c: multiset<T>, d: multiset<T>, more: multiset<T>)
    requires a + b == c + d
    ensures (a + more) + b == (c + more) + d && (more + a) + b == (more + c) + d
  {
    assert (a + more) + b == (a + b) + more;
    assert (c + more) + d == (c + d) + more;
    assert more + a == a + more && more + c == c + more;
  }

  lemma {:induction false} HeldNothing(held: seq<seq<Item>>)
    requires forall t :: 0 <= t < |held| ==> held[t] == []
    ensures HeldBag(held) == multiset{}
  {
    if held != [] {
      HeldNothing(held[..|held| - 1]);
    }
  }

  lemma ItemsSnoc(fs: seq<Flush>, f: Flush)
    ensures Items(fs + [f]) == Items(fs) + f.items
  {
    assert (fs + [f])[..|fs + [f]| - 1] == fs;
  }

  // What the steps move, place by place.

  lemma BatchIsFlushed(queue: seq<Item>, batch: seq<Item>, held: seq<seq<Item>>, flushed: seq<Item>, ignored: seq<Item>)
    ensures Bag(queue, [], held, flushed + batch, ignored) == Bag(queue, batch, held, flushed, ignored)
  {
    var q, b, h, f := multiset(queue), multiset(batch), HeldBag(held), multiset(flushed);
    assert q + h + (f + b) == q + b + h + f;
  }

  lemma HeadIsTaken(queue: seq<Item>, batch: seq<Item>, held: seq<seq<Item>>, flushed: seq<Item>, ignored: seq<Item>)
    requires queue != []
    ensures var all := Bag(queue, batch, held, flushed, ignored);
      && Bag(queue[1..], batch + [queue[0]], held, flushed, ignored) == all
      && Bag(queue[1..], batch, held, flushed + [queue[0]], ignored) == all
      && Bag(queue[1..], batch, held, flushed, ignored + [queue[0]]) == all
  {
    TakeHead(queue);
    var x, q, b, h, f, i := multiset{queue[0]}, multiset(queue[1..]), multiset(batch), HeldBag(held), multiset(flushed), multiset(ignored);
    assert (x + q) + b + h + f + i == q + (b + x) + h + f + i == q + b + h + (f + x) + i == q + b + h + f + (i + x);
  }

  lemma HeadIsHeld(queue: seq<Item>, batch: seq<Item>, held: seq<seq<Item>>, t: nat, flushed: seq<Item>, ignored: seq<Item>)
    requires queue != [] && t < |held|
    ensures Bag(queue[1..], batch, held[t := held[t] + [queue[0]]], flushed, ignored) == Bag(queue, batch, held, flushed, ignored)
  {
    TakeHead(queue);
    HeldMore(held, t, queue[0]);
    var x, rest := multiset{queue[0]}, multiset(queue[1..]);
    assert rest + multiset(batch) + (HeldBag(held) + x) == (x + rest) + multiset(batch) + HeldBag(held);
  }

  lemma HeldMore(held: seq<seq<Item>>, t: nat, x: Item)
    requires t < |held|
    ensures HeldBag(held[t := held[t] + [x]]) == HeldBag(held) + multiset{x}
  {
    var longer := held[t] + [x];
    HeldUpdate(held, t, longer);
    assert multiset(longer) == multiset{x} + multiset(held[t]);
    Cancel(HeldBag(held[t := longer]), HeldBag(held) + multiset{x}, multiset(held[t]));
  }

  lemma HeldLess(held: seq<seq<Item>>, t: nat)
    requires t < |held|
    ensures HeldBag(held[t := []]) + multiset(held[t]) == HeldBag(held)
  {
    HeldUpdate(held, t, []);
  }

  lemma Cancel<T>(a: multiset<T>, b: multiset<T>, more: multiset<T>)
    requires a + more == b + more
    ensures a == b
  {
    assert a == (a + more) - more == (b + more) - more == b;
  }

  lemma HeldIsFlushed(queue: seq<Item>, batch: seq<Item>, held: seq<seq<Item>>, t: nat, flushed: seq<Item>, ignored: seq<Item>)
    requires t < |held|
    ensures Bag(queue, batch, held[t := []], flushed + held[t], ignored) == Bag(queue, batch, held, flushed, ignored)
  {
    HeldLess(held, t);
    var q, h, f := multiset(queue) + multiset(batch), HeldBag(held[t := []]), multiset(flushed);
    assert q + h + (f + multiset(held[t])) == q + (h + multiset(held[t])) + f;
  }

  lemma RecordIsQueued(queue: seq<Item>, batch: seq<Item>, held: seq<seq<Item>>, flushed: seq<Item>, ignored: seq<Item>, x: Item)
    ensures Bag(queue + [x], batch, held, flushed, ignored) == Bag(queue, batch, held, flushed, ignored) + multiset{x}
  {
    var q, b, h, f, i := multiset(queue), multiset(batch), HeldBag(held), multiset(flushed), multiset(ignored);
    assert (q + multiset{x}) + b + h + f + i == (q + b + h + f + i) + multiset{x};
  }

  // The steps.

  lemma RoundEndConserves(c: Config, s: State, overdue: bool)
    requires Conserved(s)
    ensures Conserved(RoundEnd(c, s, overdue))
  {
    ItemsSnoc(s.flushed, Flush(true, s.batch));
    BatchIsFlushed(s.queue, s.batch, s.held, Items(s.flushed), s.ignored);
  }

  lemma TakenConserves(s: State)
    requires Conserved(s) && s.queue != []
    ensures Conserved(Taken(s))
  {
    HeadIsTaken(s.queue, s.batch, s.held, Items(s.flushed), s.ignored);
  }

  lemma ReceiveConserves(c: Config, s: State, overdue: bool)
    requires Conserved(s) && Enabled(c, s, Receive(overdue))
    ensures Conserved(After(c, s, Receive(overdue)))
  {
    TakenConserves(s);
    RoundEndConserves(c, Taken(s), overdue);
  }

  lemma PutConserves(c: Config, s: State, none: bool, block: bool)
    requires Conserved(s) && Enabled(c, s, Put(none, block))
    ensures Conserved(After(c, s, Put(none, block)))
  {
    RecordIsQueued(s.queue, s.batch, s.held, Items(s.flushed), s.ignored, Item(|s.accepted|, none));
  }

  lemma ExitConserves(c: Config, s: State)
    requires Conserved(s) && Enabled(c, s, ExitFlush)
    ensures Conserved(After(c, s, ExitFlush))
  {
    ItemsSnoc(s.flushed, Flush(true, s.batch));
    BatchIsFlushed(s.queue, s.batch, s.held, Items(s.flushed), s.ignored);
  }

  lemma DrainConserves(c: Config, s: State)
    requires Conserved(s) && Enabled(c, s, DrainOne)
    ensures Conserved(After(c, s, DrainOne))
  {
    ItemsSnoc(s.flushed, Flush(true, [s.queue[0]]));
    HeadIsTaken(s.queue, s.batch, s.held, Items(s.flushed), s.ignored);
  }

  lemma SyncTakeConserves(c: Config, s: State, t: nat)
    requires Conserved(s) && Enabled(c, s, SyncTake(t))
    ensures Conserved(After(c, s, SyncTake(t)))
  {
    HeadIsHeld(s.queue, s.batch, s.held, t, Items(s.flushed), s.ignored);
  }

  lemma SyncFlushConserves(c: Config, s: State, t: nat)
    requires Conserved(s) && Enabled(c, s, SyncFlush(t))
    ensures Conserved(After(c, s, SyncFlush(t)))
  {
    ItemsSnoc(s.flushed, Flush(false, s.held[t]));
    HeldIsFlushed(s.queue, s.batch, s.held, t, Items(s.flushed), s.ignored);
  }

  lemma ConservedStep(c: Config, s: State, e: Event)
    requires Conserved(s) && Enabled(c, s, e)
    ensures Conserved(After(c, s, e))
  {
    match e
    case Put(none, block) => PutConserves(c, s, none, block);
    case Check =>
    case Receive(overdue) => ReceiveConserves(c, s, overdue);
    case Timeout(overdue) => RoundEndConserves(c, s, overdue);
    case ExitFlush => ExitConserves(c, s);
    case DrainOne => DrainConserves(c, s);
    case DrainEnd =>
    case SyncTake(t) => SyncTakeConserves(c, s, t);
    case SyncFlush(t) => SyncFlushConserves(c, s, t);
    case Stop =>
  }

  lemma {:induction false} ConservedRun(c: Config, trace: seq<State>, events: seq<Event>, n: nat)
    requires IsRun(c, trace, events) && n <= |events|
    ensures Conserved(trace[n])
  {
    if n == 0 {
      HeldNothing(trace[0].held);
    } else {
      ConservedRun(c, trace, events, n - 1);
      ConservedAt(c, trace, events, n);
    }
  }

  lemma ConservedAt(c: Config, trace: seq<State>, events: seq<Event>, i: nat)
    requires IsRun(c, trace, events) && 0 < i <= |events| && Conserved(trace[i - 1])
    ensures Conserved(trace[i])
  {
    assert IsStep(c, trace, events, i);
    ConservedStep(c, trace[i - 1], events[i - 1]);
  }

  /** Tickets number the acceptances. */
  lemma {:induction false} TicketsInOrder(c: Config, trace: seq<State>, events: seq<Event>, n: nat)
    requires IsRun(c, trace, events) && n <= |events|
    ensures Numbered(trace[n].accepted)
  {
    if n > 0 {
      TicketsInOrder(c, trace, events, n - 1);
      NumberedAt(c, trace, events, n);
    }
  }

  lemma NumberedAt(c: Config, trace: seq<State>, events: seq<Event>, i: nat)
    requires IsRun(c, trace, events) && 0 < i <= |events| && Numbered(trace[i - 1].accepted)
    ensures Numbered(trace[i].accepted)
  {
    assert IsStep(c, trace, events, i);
    NumberedStep(c, trace[i - 1], events[i - 1]);
  }

  predicate Numbered(accepted: seq<Item>) {
    forall k :: 0 <= k < |accepted| ==> accepted[k].ticket == k
  }

  lemma NumberedStep(c: Config, s: State, e: Event)
    requires Enabled(c, s, e) && Numbered(s.accepted)
    ensures Numbered(After(c, s, e).accepted)
  {
  }

  lemma {:induction false} AcceptedOnce(accepted: seq<Item>, k: nat)
    requires Numbered(accepted) && k < |accepted|
    ensures multiset(accepted)[accepted[k]] == 1
  {
    var n := |accepted| - 1;
    assert accepted == accepted[..n] + [accepted[n]];
    if k < n {
      AcceptedOnce(accepted[..n], k);
    } else {
      assert accepted[n] !in accepted[..n];
    }
  }

  /** In every interleaving an accepted record that is not None is in exactly one of the queue,
      the worker's batch, one flush_now call and one flush, and there only once. */
  lemma ExactlyOnce(c: Config, trace: seq<State>, events: seq<Event>, n: nat, k: nat)
    requires IsRun(c, trace, events) && n <= |events|
    requires k < |trace[n].accepted| && !trace[n].accepted[k].none
    ensures var s, x := trace[n], trace[n].accepted[k];
      multiset(s.queue)[x] + multiset(s.batch)[x] + HeldBag(s.held)[x] + multiset(Items(s.flushed))[x] == 1
  {
    ConservedRun(c, trace, events, n);
    TicketsInOrder(c, trace, events, n);
    OneOfAll(trace[n], k);
  }

  lemma OneOfAll(s: State, k: nat)
    requires Conserved(s) && Numbered(s.accepted)
    requires k < |s.accepted| && !s.accepted[k].none
    ensures var x := s.accepted[k];
      multiset(s.queue)[x] + multiset(s.batch)[x] + HeldBag(s.held)[x] + multiset(Items(s.flushed))[x] == 1
  {
    AcceptedOnce(s.accepted, k);
    assert s.accepted[k] !in s.ignored;
  }

  // ---------- batches ----------

  /** Flushes are never empty, and the worker never collects more than a batch. */
  ghost predicate WellBatched(c: Config, s: State) {
    && (forall f :: f in s.flushed ==> f.items != [] && (f.byWorker ==> |f.items| <= c.batchSize))
    && |s.batch| < c.batchSize
    && (s.phase == Draining || s.phase == Done ==> s.batch == [])
  }

  lemma {:induction false} BatchesFit(c: Config, trace: seq<State>, events: seq<Event>, n: nat)
    requires IsRun(c, trace, events) && n <= |events|
    ensures WellBatched(c, trace[n])
  {
    if n > 0 {
      BatchesFit(c, trace, events, n - 1);
      BatchesFitAt(c, trace, events, n);
    }
  }

  lemma BatchesFitAt(c: Config, trace: seq<State>, events: seq<Event>, i: nat)
    requires IsRun(c, trace, events) && 0 < i <= |events| && WellBatched(c, trace[i - 1])
    ensures WellBatched(c, trace[i])
  {
    assert IsStep(c, trace, events, i);
    BatchesFitStep(c, trace[i - 1], events[i - 1]);
  }

  lemma BatchesFitStep(c: Config, s: State, e: Event)
    requires WellBatched(c, s) && Enabled(c, s, e) && c.batchSize > 0
    ensures WellBatched(c, After(c, s, e))
  {
  }

  // ---------- order ----------

  function Records(items: seq<Item>): seq<Item> {
    if items == [] then []
    else
      var front := Records(items[..|items| - 1]);
      if items[|items| - 1].none then front else front + [items[|items| - 1]]
  }

  lemma {:induction false} RecordsAppend(a: seq<Item>, b: seq<Item>)
    ensures Records(a + b) == Records(a) + Records(b)
  {
    if b == [] {
      assert a + b == a;
    } else {
      RecordsAppend(a, b[..|b| - 1]);
      assert (a + b)[..|a + b| - 1] == a + b[..|b| - 1];
    }
  }

  /** What has been flushed, is batched and is queued, in this order, is what was accepted. */
  ghost predicate InOrder(flushed: seq<Item>, batch: seq<Item>, queue: seq<Item>, accepted: seq<Item>) {
    Records(flushed) + Records(batch) + Records(queue) == Records(accepted)
  }

  ghost predicate Ordered(s: State) {
    InOrder(Items(s.flushed), s.batch, s.queue, s.accepted)
  }

  lemma OrderOfFlush(flushed: seq<Item>, batch: seq<Item>, queue: seq<Item>, accepted: seq<Item>)
    requires InOrder(flushed, batch, queue, accepted)
    ensures InOrder(flushed + batch, [], queue, accepted)
  {
    RecordsAppend(flushed, batch);
  }

  lemma RecordsOne(x: Item)
    ensures Records([x]) == if x.none then [] else [x]
  {
    assert [x][..0] == [];
  }

  lemma RecordsHead(queue: seq<Item>)
    requires queue != []
    ensures Records(queue) == Records([queue[0]]) + Records(queue[1..])
  {
    assert queue == [queue[0]] + queue[1..];
    RecordsAppend([queue[0]], queue[1..]);
  }

  /** The head of the queue goes to the end of the batch, or is nothing. */
  lemma OrderOfTake(flushed: seq<Item>, batch: seq<Item>, queue: seq<Item>, accepted: seq<Item>)
    requires queue != [] && InOrder(flushed, batch, queue, accepted)
    ensures InOrder(flushed, if queue[0].none then batch else batch + [queue[0]], queue[1..], accepted)
  {
    RecordsHead(queue);
    RecordsOne(queue[0]);
    RecordsAppend(batch, [queue[0]]);
    Regroup(Records(flushed), Records(batch), Records([queue[0]]), Records(queue[1..]));
  }

  lemma Regroup<T>(a: seq<T>, b: seq<T>, c: seq<T>, d: seq<T>)
    ensures a + (b + c) + d == a + b + (c + d)
  {
  }

  lemma OrderOfDrain(flushed: seq<Item>, batch: seq<Item>, queue: seq<Item>, accepted: seq<Item>)
    requires queue != [] && batch == [] && InOrder(flushed, batch, queue, accepted)
    ensures InOrder(flushed + [queue[0]], batch, queue[1..], accepted)
  {
    RecordsHead(queue);
    RecordsAppend(flushed, [queue[0]]);
    NothingBetween(Records(flushed), Records([queue[0]]), Records(batch), Records(queue[1..]));
  }

  lemma NothingBetween<T>(a: seq<T>, b: seq<T>, none: seq<T>, c: seq<T>)
    requires none == []
    ensures (a + b) + none + c == a + none + (b + c)
  {
  }

  lemma OrderOfPut(flushed: seq<Item>, batch: seq<Item>, queue: seq<Item>, accepted: seq<Item>, x: Item)
    requires InOrder(flushed, batch, queue, accepted)
    ensures InOrder(flushed, batch, queue + [x], accepted + [x])
  {
    RecordsAppend(queue, [x]);
    RecordsAppend(accepted, [x]);
  }

  lemma RoundEndOrder(c: Config, s: State, overdue: bool)
    requires Ordered(s)
    ensures Ordered(RoundEnd(c, s, overdue))
  {
    ItemsSnoc(s.flushed, Flush(true, s.batch));
    OrderOfFlush(Items(s.flushed), s.batch, s.queue, s.accepted);
  }

  lemma PutOrder(c: Config, s: State, none: bool, block: bool)
    requires Ordered(s) && Enabled(c, s, Put(none, block))
    ensures Ordered(After(c, s, Put(none, block)))
  {
    OrderOfPut(Items(s.flushed), s.batch, s.queue, s.accepted, Item(|s.accepted|, none));
  }

  lemma ReceiveOrder(c: Config, s: State, overdue: bool)
    requires Ordered(s) && Enabled(c, s, Receive(overdue))
    ensures Ordered(After(c, s, Receive(overdue)))
  {
    OrderOfTake(Items(s.flushed), s.batch, s.queue, s.accepted);
    RoundEndOrder(c, Taken(s), overdue);
  }

  lemma ExitOrder(c: Config, s: State)
    requires Ordered(s) && s.phase == Exiting
    ensures Ordered(After(c, s, ExitFlush))
  {
    ItemsSnoc(s.flushed, Flush(true, s.batch));
    OrderOfFlush(Items(s.flushed), s.batch, s.queue, s.accepted);
  }

  lemma DrainOrder(c: Config, s: State)
    requires Ordered(s) && s.phase == Draining && s.queue != [] && s.batch == []
    ensures Ordered(After(c, s, DrainOne))
  {
    ItemsSnoc(s.flushed, Flush(true, [s.queue[0]]));
    OrderOfDrain(Items(s.flushed), s.batch, s.queue, s.accepted);
  }

  lemma OrderStep(c: Config, s: State, e: Event)
    requires Enabled(c, s, e) && !e.SyncTake? && !e.SyncFlush? && (s.phase == Draining ==> s.batch == [])
    requires Ordered(s)
    ensures Ordered(After(c, s, e))
  {
    match e
    case Put(none, block) => PutOrder(c, s, none, block);
    case Check =>
    case Receive(overdue) => ReceiveOrder(c, s, overdue);
    case Timeout(overdue) => RoundEndOrder(c, s, overdue);
    case ExitFlush => ExitOrder(c, s);
    case DrainOne => DrainOrder(c, s);
    case DrainEnd =>
    case Stop =>
  }

  /** Without flush_now the records reach the callable in the order of acceptance. */
  lemma {:induction false} FlushedInOrder(c: Config, trace: seq<State>, events: seq<Event>, n: nat)
    requires IsRun(c, trace, events) && n <= |events|
    requires forall i :: 0 <= i < n ==> !events[i].SyncTake? && !events[i].SyncFlush?
    ensures Ordered(trace[n])
  {
    if n > 0 {
      FlushedInOrder(c, trace, events, n - 1);
      BatchesFit(c, trace, events, n - 1);
      OrderAt(c, trace, events, n);
    }
  }

  lemma OrderAt(c: Config, trace: seq<State>, events: seq<Event>, i: nat)
    requires IsRun(c, trace, events) && 0 < i <= |events| && !events[i - 1].SyncTake? && !events[i - 1].SyncFlush?
    requires WellBatched(c, trace[i - 1]) && Ordered(trace[i - 1])
    ensures Ordered(trace[i])
  {
    assert IsStep(c, trace, events, i);
    OrderStep(c, trace[i - 1], events[i - 1]);
  }

  // ---------- stop ----------

  /** Once the worker has left its exit loop and nothing more is put, the queue stays empty. */
  lemma {:induction false} StaysEmpty(c: Config, trace: seq<State>, events: seq<Event>, m: nat, n: nat)
    requires IsRun(c, trace, events) && m < n <= |events| && events[m] == DrainEnd
    requires forall i :: m <= i < n ==> !events[i].Put?
    ensures trace[n].phase == Done && trace[n].queue == []
  {
    assert IsStep(c, trace, events, n);
    if n - 1 > m {
      StaysEmpty(c, trace, events, m, n - 1);
    }
  }

  /** ... and when no flush_now call holds anything, every accepted record has been flushed,
      once. */
  lemma StopFlushesEverything(c: Config, trace: seq<State>, events: seq<Event>, m: nat, n: nat, k: nat)
    requires IsRun(c, trace, events) && m < n <= |events| && events[m] == DrainEnd
    requires forall i :: m <= i < n ==> !events[i].Put?
    requires forall t :: 0 <= t < |trace[n].held| ==> trace[n].held[t] == []
    requires k < |trace[n].accepted| && !trace[n].accepted[k].none
    ensures multiset(Items(trace[n].flushed))[trace[n].accepted[k]] == 1
  {
    StaysEmpty(c, trace, events, m, n);
    BatchesFit(c, trace, events, n);
    HeldNothing(trace[n].held);
    ExactlyOnce(c, trace, events, n, k);
  }

  // ---------- from stop to the last flush ----------

  /** Somebody has called stop among the first n events. */
  ghost predicate StopCalled(events: seq<Event>, n: nat)
    requires n <= |events|
  {
    exists i :: 0 <= i < n && events[i] == Stop
  }

  lemma StoppingAt(c: Config, trace: seq<State>, events: seq<Event>, i: nat)
    requires IsRun(c, trace, events) && 0 < i <= |events|
    ensures trace[i].stopping <==> trace[i - 1].stopping || events[i - 1] == Stop
  {
    assert IsStep(c, trace, events, i);
  }

  /** The stop event is set exactly if somebody has set it. */
  lemma {:induction false} StoppingIff(c: Config, trace: seq<State>, events: seq<Event>, n: nat)
    requires IsRun(c, trace, events) && n <= |events|
    ensures trace[n].stopping <==> StopCalled(events, n)
  {
    if n > 0 {
      StoppingIff(c, trace, events, n - 1);
      StoppingAt(c, trace, events, n);
      if StopCalled(events, n) && !StopCalled(events, n - 1) {
        assert events[n - 1] == Stop;
      }
    }
  }

  predicate Leaving(phase: Phase) {
    phase == Exiting || phase == Draining || phase == Done
  }

  lemma LeavingAt(c: Config, trace: seq<State>, events: seq<Event>, i: nat)
    requires IsRun(c, trace, events) && 0 < i <= |events|
    requires Leaving(trace[i - 1].phase) ==> trace[i - 1].stopping
    ensures Leaving(trace[i].phase) ==> trace[i].stopping
  {
    assert IsStep(c, trace, events, i);
  }

  /** The worker leaves its loop only after a stop. */
  lemma {:induction false} LeavesOnlyWhenStopped(c: Config, trace: seq<State>, events: seq<Event>, n: nat)
    requires IsRun(c, trace, events) && n <= |events| && Leaving(trace[n].phase)
    ensures StopCalled(events, n)
  {
    LeavingMeansStopping(c, trace, events, n);
    StoppingIff(c, trace, events, n);
  }

  lemma {:induction false} LeavingMeansStopping(c: Config, trace: seq<State>, events: seq<Event>, n: nat)
    requires IsRun(c, trace, events) && n <= |events|
    ensures Leaving(trace[n].phase) ==> trace[n].stopping
  {
    if n > 0 {
      LeavingMeansStopping(c, trace, events, n - 1);
      LeavingAt(c, trace, events, n);
    }
  }

  /** At the head of its loop the worker leaves if there was a stop, and waits for a record if not. */
  lemma CheckObeysStop(c: Config, trace: seq<State>, events: seq<Event>, n: nat)
    requires IsRun(c, trace, events) && 0 < n <= |events| && events[n - 1] == Check
    ensures trace[n].phase == if StopCalled(events, n - 1) then Exiting else Waiting
  {
    StoppingIff(c, trace, events, n - 1);
    assert IsStep(c, trace, events, n);
  }

  predicate ByWorker(e: Event) {
    e.Check? || e.Receive? || e.Timeout? || e.ExitFlush? || e.DrainOne? || e.DrainEnd?
  }

  /** Steps of the worker among the events from m up to n. */
  function WorkerSteps(events: seq<Event>, m: nat, n: nat): nat
    requires m <= n <= |events|
  {
    if n == m then 0 else WorkerSteps(events, m, n - 1) + if ByWorker(events[n - 1]) then 1 else 0
  }

  /** An upper bound on the steps of a stopped worker to its end: a round that has begun, the check,
      the flush of its batch, one flush for every record left, and the end. */
  function StepsToEnd(s: State): nat {
    match s.phase
    case Waiting => |s.queue| + 4
    case AtHead => |s.queue| + 3
    case Exiting => |s.queue| + 2
    case Draining => |s.queue| + 1
    case Done => 0
  }

  /** A stopped worker that has not come to its end can always go on ... */
  lemma StoppedIsNotStuck(c: Config, s: State)
    requires s.phase != Done
    ensures exists e :: ByWorker(e) && Enabled(c, s, e)
  {
    var e := match s.phase
      case AtHead => Check
      case Waiting => Timeout(false)
      case Exiting => ExitFlush
      case _ => if s.queue == [] then DrainEnd else DrainOne;
    assert ByWorker(e) && Enabled(c, s, e);
  }

  /** ... and every step brings it nearer. */
  lemma StepsToEndAt(c: Config, trace: seq<State>, events: seq<Event>, i: nat)
    requires IsRun(c, trace, events) && 0 < i <= |events| && trace[i - 1].stopping && !events[i - 1].Put?
    ensures StepsToEnd(trace[i]) + (if ByWorker(events[i - 1]) then 1 else 0) <= StepsToEnd(trace[i - 1])
    ensures trace[i - 1].phase == Done && trace[i - 1].queue == [] ==> trace[i].phase == Done && trace[i].queue == []
    ensures trace[i - 1].phase != Done && trace[i].phase == Done ==> trace[i].queue == []
  {
    assert IsStep(c, trace, events, i);
    StepsToEndStep(c, trace[i - 1], events[i - 1]);
  }

  lemma StepsToEndStep(c: Config, s: State, e: Event)
    requires Enabled(c, s, e) && s.stopping && !e.Put?
    ensures StepsToEnd(After(c, s, e)) + (if ByWorker(e) then 1 else 0) <= StepsToEnd(s)
    ensures s.phase == Done && s.queue == [] ==> After(c, s, e).phase == Done && After(c, s, e).queue == []
    ensures s.phase != Done && After(c, s, e).phase == Done ==> After(c, s, e).queue == []
  {
  }

  /** From the first stop on, with no further puts, the worker's steps are numbered. */
  lemma {:induction false} StepsAreBounded(c: Config, trace: seq<State>, events: seq<Event>, m: nat, n: nat)
    requires IsRun(c, trace, events) && m < n <= |events| && events[m] == Stop && !StopCalled(events, m)
    requires forall i :: m <= i < n ==> !events[i].Put?
    ensures WorkerSteps(events, m + 1, n) + StepsToEnd(trace[n]) <= |trace[m].queue| + 4
    ensures trace[n].phase == Done ==> trace[n].queue == []
    ensures trace[n].stopping
  {
    StoppingIff(c, trace, events, n);
    if n == m + 1 {
      if Leaving(trace[m].phase) {
        LeavesOnlyWhenStopped(c, trace, events, m);
        assert false;
      }
      assert IsStep(c, trace, events, n);
    } else {
      StepsAreBounded(c, trace, events, m, n - 1);
      StepsToEndAt(c, trace, events, n);
    }
  }

  /** After the first stop, with no further puts, the worker comes to its end within four steps and
      one for every record queued at the stop, in whatever phase the stop has found it; and then,
      when no flush_now call holds anything, every accepted record has been flushed, once. */
  lemma StopDrains(c: Config, trace: seq<State>, events: seq<Event>, m: nat, n: nat, k: nat)
    requires IsRun(c, trace, events) && m < n <= |events| && events[m] == Stop && !StopCalled(events, m)
    requires forall i :: m <= i < n ==> !events[i].Put?
    requires WorkerSteps(events, m + 1, n) >= |trace[m].queue| + 4 || trace[n].phase == Done
    requires forall t :: 0 <= t < |trace[n].held| ==> trace[n].held[t] == []
    requires k < |trace[n].accepted| && !trace[n].accepted[k].none
    ensures trace[n].phase == Done && trace[n].queue == []
    ensures multiset(Items(trace[n].flushed))[trace[n].accepted[k]] == 1
  {
    StepsAreBounded(c, trace, events, m, n);
    BatchesFit(c, trace, events, n);
    HeldNothing(trace[n].held);
    ExactlyOnce(c, trace, events, n, k);
  }

  // ---------- what a put and a flush are for ----------

  /** A put is accepted, at the end of the queue, exactly when there is no limit or room below it;
      otherwise it is counted as dropped and changes nothing. */
  lemma PutIsAccepted(c: Config, s: State, none: bool, block: bool)
    requires Enabled(c, s, Put(none, block))
    ensures var after := After(c, s, Put(none, block));
      if c.maxsize <= 0 || |s.queue| < c.maxsize
      then after.queue == s.queue + [Item(|s.accepted|, none)] && after.accepted == s.accepted + [Item(|s.accepted|, none)]
        && after.dropped == s.dropped
      else !block && after.queue == s.queue && after.accepted == s.accepted && after.dropped == s.dropped + 1
  {
  }

  /** Nobody but a blocking put on a full queue ever has to wait for the others. */
  lemma CallersMayAlways(c: Config, s: State, none: bool, t: nat)
    ensures Enabled(c, s, Put(none, false)) && Enabled(c, s, Stop)
    ensures Enabled(c, s, Put(none, true)) <==> c.maxsize <= 0 || |s.queue| < c.maxsize
    ensures t < |s.held| ==> Enabled(c, s, SyncFlush(t)) && (s.queue != [] ==> Enabled(c, s, SyncTake(t)))
  {
  }

  /** A waiting worker may take the head of the queue, and adds it to its batch unless it is None. */
  lemma WaitingWorkerTakes(c: Config, s: State, overdue: bool)
    requires s.phase == Waiting && s.queue != []
    ensures Enabled(c, s, Receive(overdue))
    ensures var after := After(c, s, Receive(overdue));
      && after.queue == s.queue[1..] && after.phase == AtHead
      && (s.queue[0].none ==> after.ignored == s.ignored + [s.queue[0]])
  {
  }

  function Puts(events: seq<Event>, n: nat): nat
    requires n <= |events|
  {
    if n == 0 then 0 else Puts(events, n - 1) + if events[n - 1].Put? then 1 else 0
  }

  lemma PutsAt(c: Config, trace: seq<State>, events: seq<Event>, i: nat)
    requires IsRun(c, trace, events) && 0 < i <= |events|
    ensures |trace[i].accepted| + trace[i].dropped
         == |trace[i - 1].accepted| + trace[i - 1].dropped + if events[i - 1].Put? then 1 else 0
    ensures c.maxsize <= 0 ==> trace[i].dropped == trace[i - 1].dropped
  {
    assert IsStep(c, trace, events, i);
  }

  /** Every put is accepted or counted as dropped, and an unlimited queue drops nothing. */
  lemma {:induction false} PutsAreCounted(c: Config, trace: seq<State>, events: seq<Event>, n: nat)
    requires IsRun(c, trace, events) && n <= |events|
    ensures |trace[n].accepted| + trace[n].dropped == Puts(events, n)
    ensures c.maxsize <= 0 ==> trace[n].dropped == 0
  {
    if n > 0 {
      PutsAreCounted(c, trace, events, n - 1);
      PutsAt(c, trace, events, n);
    }
  }

  /** In its loop the worker flushes exactly when the batch is full or overdue. */
  lemma LoopFlushes(c: Config, s: State, e: Event, overdue: bool)
    requires WellBatched(c, s) && Enabled(c, s, e) && (e == Receive(overdue) || e == Timeout(overdue))
    ensures var held := s.batch + (if e.Receive? && !s.queue[0].none then [s.queue[0]] else []);
      var after := After(c, s, e);
      if |held| == c.batchSize || (overdue && held != [])
      then after.flushed == s.flushed + [Flush(true, held)] && after.batch == []
      else after.flushed == s.flushed && after.batch == held
  {
    assert s.batch + [] == s.batch;
  }

  /** The loop of flush_now by caller t: k records, one after the other. */
  function AfterTakes(c: Config, s: State, t: nat, k: nat): (r: State)
    ensures |r.held| == |s.held|
    decreases k
  {
    if k == 0 || !Enabled(c, s, SyncTake(t)) then s else AfterTakes(c, After(c, s, SyncTake(t)), t, k - 1)
  }

  lemma {:induction false} TakesAll(c: Config, s: State, t: nat)
    requires t < |s.held|
    ensures AfterTakes(c, s, t, |s.queue|) == s.(queue := [], held := s.held[t := s.held[t] + s.queue])
    decreases |s.queue|
  {
    if s.queue == [] {
      assert s.held[t] + s.queue == s.held[t];
      assert s.held[t := s.held[t]] == s.held;
    } else {
      var next := After(c, s, SyncTake(t));
      TakesAll(c, next, t);
      assert (s.held[t] + [s.queue[0]]) + s.queue[1..] == s.held[t] + s.queue;
      assert next.held[t := next.held[t] + next.queue] == s.held[t := s.held[t] + s.queue];
    }
  }

  /** A flush_now that nobody disturbs flushes all that is queued, as one batch; an empty queue
      makes it flush nothing. */
  lemma FlushNowFlushesAll(c: Config, s: State, t: nat)
    requires t < |s.held| && s.held[t] == []
    ensures var after := After(c, AfterTakes(c, s, t, |s.queue|), SyncFlush(t));
      && after.queue == [] && after.held == s.held
      && after.flushed == s.flushed + if s.queue == [] then [] else [Flush(false, s.queue)]
  {
    TakesAll(c, s, t);
    assert [] + s.queue == s.queue;
    assert s.held[t := s.queue][t := []] == s.held;
  }
}
