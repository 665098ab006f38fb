/**
 The streaming pipeline of adapters/search/facade.py and adapters/search/dedupe.py: producers
 register results with a shared deduper and put them on a bounded queue; the consumer reads up
 to the close sentinel. Registering, put, close and get are atomic steps.
 */
module SearchStream {
  import opened Wrappers

  /** The fields that identify a result; an absent infohash is None or empty. */
  datatype Torrent = Torrent(infohash: Option<string>, name: string, size: nat, engine: string, desc: string, adult: bool)

  datatype Fingerprint = ByHash(hash: string) | ByFields(name: string, size: nat, engine: string, desc: string)

  /** String folding (strip, lower, NFKD, casefold) as total functions. */
  datatype Folding = Folding(lower: string -> string, name: string -> string)

  function FingerprintOf(f: Folding, t: Torrent): Fingerprint {
    if t.infohash.Some? && t.infohash.value != ""
    then ByHash(f.lower(t.infohash.value))
    else ByFields(f.name(t.name), t.size, f.lower(t.engine), f.lower(t.desc))
  }

  predicate HasHash(t: Torrent) {
    t.infohash.Some? && t.infohash.value != ""
  }

  /** When two results count as the same: by infohash if they have one, regardless of every
      other field; a result with an infohash is never the same as one without. */
  lemma SameFingerprint(f: Folding, a: Torrent, b: Torrent)
    ensures FingerprintOf(f, a) == FingerprintOf(f, b) <==>
      && (HasHash(a) <==> HasHash(b))
      && (HasHash(a) && HasHash(b) ==> f.lower(a.infohash.value) == f.lower(b.infohash.value))
      && (!HasHash(a) && !HasHash(b) ==>
            f.name(a.name) == f.name(b.name) && a.size == b.size
            && f.lower(a.engine) == f.lower(b.engine) && f.lower(a.desc) == f.lower(b.desc))
  {
  }

  datatype Entry = Result(torrent: Torrent) | Sentinel

  // ---------- the bounded queue ----------

  datatype Stream = Stream(capacity: int, queue: seq<Entry>, closed: bool)

  predicate HasRoom(s: Stream) {
    s.capacity <= 0 || |s.queue| < s.capacity
  }

  /** A closed stream refuses; a full one drops the newest item after its timeout. */
  predicate Refuses(s: Stream) {
    s.closed || !HasRoom(s)
  }

  function AfterPut(s: Stream, t: Torrent): Stream {
    if Refuses(s) then s else s.(queue := s.queue + [Result(t)])
  }

  /** Closing makes room for the sentinel by discarding the oldest item, if it must. */
  function AfterClose(s: Stream): Stream {
    if s.closed then s
    else if HasRoom(s) then s.(queue := s.queue + [Sentinel], closed := true)
    else s.(queue := s.queue[1..] + [Sentinel], closed := true)
  }

  // ---------- the pipeline ----------

  /** `inFlight` are registered results on their way to put. The logs: `accepted` by the sink,
      `emitted` by successful puts, `dropped` by the others, `output` seen by the consumer. */
  datatype Pipeline = Pipeline(
    allowNsfw: bool, seen: set<Fingerprint>, inFlight: seq<Torrent>, stream: Stream,
    accepted: seq<Torrent>, emitted: seq<Torrent>, dropped: seq<Torrent>, output: seq<Torrent>,
    finished: bool, cancelled: bool)

  datatype Event =
    | Offer(torrent: Torrent)  // sink() up to and including register
    | PutFlying(n: nat)        // the put of one registered result
    | Close
    | Take
    | Deadline
    | Cancel

  predicate Enabled(p: Pipeline, e: Event) {
    match e
    case PutFlying(n) => n < |p.inFlight|
    case Take => !p.finished && p.stream.queue != []
    case _ => true
  }

  /** The sink ignores a result when cancelled, when it is adult and these are off, and when its
      fingerprint is known. */
  predicate Ignores(f: Folding, p: Pipeline, t: Torrent) {
    p.cancelled || (!p.allowNsfw && t.adult) || FingerprintOf(f, t) in p.seen
  }

  function After(f: Folding, p: Pipeline, e: Event): Pipeline
    requires Enabled(p, e)
  {
    match e
    case Offer(t) =>
      if Ignores(f, p, t) then p
      else p.(seen := p.seen + {FingerprintOf(f, t)}, inFlight := p.inFlight + [t], accepted := p.accepted + [t])
    case PutFlying(n) =>
      var landed := p.(inFlight := Skip(p.inFlight, n), stream := AfterPut(p.stream, p.inFlight[n]));
      if Refuses(p.stream) then landed.(dropped := p.dropped + [p.inFlight[n]])
      else landed.(emitted := p.emitted + [p.inFlight[n]])
    case Close => p.(stream := AfterClose(p.stream))
    case Take =>
      var head, rest := p.stream.queue[0], p.stream.(queue := p.stream.queue[1..]);
      if head.Sentinel? then p.(stream := rest, finished := true)
      else p.(stream := rest, output := p.output + [head.torrent])
    case Deadline => p.(finished := true)
    case Cancel => p.(cancelled := true)
  }

  predicate Initial(p: Pipeline) {
    && p.seen == {} && p.inFlight == [] && p.stream.queue == [] && !p.stream.closed
    && p.accepted == p.emitted == p.dropped == p.output == [] && !p.finished && !p.cancelled
  }

  /** The i-th step of a run. */
  ghost predicate IsStep(f: Folding, trace: seq<Pipeline>, events: seq<Event>, i: nat)
    requires 0 < i <= |events| && |trace| == |events| + 1
  {
    Enabled(trace[i - 1], events[i - 1]) && trace[i] == After(f, trace[i - 1], events[i - 1])
  }

  ghost predicate IsRun(f: Folding, trace: seq<Pipeline>, events: seq<Event>) {
    && |trace| == |events| + 1 && Initial(trace[0])
    && forall i :: 0 < i <= |events| ==> IsStep(f, trace, events, i)
  }

  function Skip<T>(s: seq<T>, i: nat): seq<T>
    requires i < |s|
  {
    s[..i] + s[i + 1..]
  }

  // ---------- what reaches the consumer ----------

  function Results(q: seq<Entry>): seq<Torrent> {
    if q == [] then []
    else if q[|q| - 1].Sentinel? then Results(q[..|q| - 1])
    else Results(q[..|q| - 1]) + [q[|q| - 1].torrent]
  }

  /** `part` is `whole` with at most one element missing. */
  ghost predicate AllButOne(part: seq<Torrent>, whole: seq<Torrent>) {
    part == whole || exists i :: 0 <= i < |whole| && part == Skip(whole, i)
  }

  /** The sentinel ends a closed stream and is in no other, so a consumer that has not finished
      will meet it after the results still queued. */
  ghost predicate SentinelEnds(s: Stream, finished: bool) {
    && (forall i :: 0 <= i < |s.queue| && s.queue[i].Sentinel? ==> s.closed && i == |s.queue| - 1)
    && (s.closed && !finished ==> s.queue != [] && s.queue[|s.queue| - 1].Sentinel?)
  }

  /** The consumer's results and those queued for it are what was put, less at most one once the
      stream is closed. */
  ghost predicate Delivers(output: seq<Torrent>, s: Stream, emitted: seq<Torrent>) {
    if s.closed then AllButOne(output + Results(s.queue), emitted) else output + Results(s.queue) == emitted
  }

  lemma {:induction false} ResultsAppend(a: seq<Entry>, b: seq<Entry>)
    ensures Results(a + b) == Results(a) + Results(b)
  {
    if b == [] {
      assert a + b == a;
    } else {
      ResultsAppend(a, b[..|b| - 1]);
      assert (a + b)[..|a + b| - 1] == a + b[..|b| - 1];
    }
  }

  lemma ResultsOne(e: Entry)
    ensures Results([e]) == if e.Sentinel? then [] else [e.torrent]
  {
    assert [e][..0] == [];
  }

  lemma ResultsHead(queue: seq<Entry>)
    requires queue != []
    ensures Results(queue) == (if queue[0].Sentinel? then [] else [queue[0].torrent]) + Results(queue[1..])
  {
    assert queue == [queue[0]] + queue[1..];
    ResultsAppend([queue[0]], queue[1..]);
    ResultsOne(queue[0]);
  }

  lemma ResultsSnoc(queue: seq<Entry>, e: Entry)
    ensures Results(queue + [e]) == Results(queue) + if e.Sentinel? then [] else [e.torrent]
  {
    ResultsAppend(queue, [e]);
    ResultsOne(e);
  }

  lemma PutDelivers(output: seq<Torrent>, s: Stream, emitted: seq<Torrent>, t: Torrent)
    requires Delivers(output, s, emitted) && !Refuses(s)
    ensures Delivers(output, AfterPut(s, t), emitted + [t])
  {
    ResultsSnoc(s.queue, Result(t));
    assert output + (Results(s.queue) + [t]) == (output + Results(s.queue)) + [t];
  }

  /** A full stream loses its oldest item to close, and only that. */
  lemma CloseFull(output: seq<Torrent>, s: Stream, emitted: seq<Torrent>)
    requires Delivers(output, s, emitted) && SentinelEnds(s, false) && !s.closed && !HasRoom(s)
    ensures output + Results(AfterClose(s).queue) == Skip(emitted, |output|)
  {
    ResultsHead(s.queue);
    ResultsSnoc(s.queue[1..], Sentinel);
    SkipMiddle(output, s.queue[0].torrent, Results(s.queue[1..]));
  }

  lemma SkipMiddle(a: seq<Torrent>, x: Torrent, b: seq<Torrent>)
    ensures Skip(a + ([x] + b), |a|) == a + b
  {
  }

  lemma CloseDelivers(output: seq<Torrent>, s: Stream, emitted: seq<Torrent>, finished: bool)
    requires Delivers(output, s, emitted) && SentinelEnds(s, finished)
    ensures Delivers(output, AfterClose(s), emitted)
  {
    if !s.closed {
      if HasRoom(s) {
        ResultsSnoc(s.queue, Sentinel);
      } else {
        CloseFull(output, s, emitted);
      }
    }
  }

  lemma CloseEnds(s: Stream, finished: bool)
    requires SentinelEnds(s, finished)
    ensures SentinelEnds(AfterClose(s), finished)
  {
  }

  lemma TakeEnds(s: Stream)
    requires SentinelEnds(s, false) && s.queue != []
    ensures SentinelEnds(s.(queue := s.queue[1..]), s.queue[0].Sentinel?)
  {
  }

  lemma PutEnds(s: Stream, t: Torrent, finished: bool)
    requires SentinelEnds(s, finished)
    ensures SentinelEnds(AfterPut(s, t), finished)
  {
  }

  lemma TakeDelivers(output: seq<Torrent>, s: Stream, emitted: seq<Torrent>)
    requires s.queue != [] && Delivers(output, s, emitted)
    ensures var rest := s.(queue := s.queue[1..]);
      Delivers(if s.queue[0].Sentinel? then output else output + [s.queue[0].torrent], rest, emitted)
  {
    ResultsHead(s.queue);
    if s.queue[0].Result? {
      Regroup(output, s.queue[0].torrent, Results(s.queue[1..]));
    }
  }

  lemma Regroup(a: seq<Torrent>, x: Torrent, b: seq<Torrent>)
    ensures (a + [x]) + b == a + ([x] + b)
  {
  }

  lemma DeliversStep(f: Folding, p: Pipeline, e: Event)
    requires Delivers(p.output, p.stream, p.emitted) && SentinelEnds(p.stream, p.finished) && Enabled(p, e)
    ensures var q := After(f, p, e); Delivers(q.output, q.stream, q.emitted)
  {
    match e
    case PutFlying(n) =>
      if !Refuses(p.stream) {
        PutDelivers(p.output, p.stream, p.emitted, p.inFlight[n]);
      }
    case Close => CloseDelivers(p.output, p.stream, p.emitted, p.finished);
    case Take => TakeDelivers(p.output, p.stream, p.emitted);
    case _ =>
  }

  lemma SentinelStep(f: Folding, p: Pipeline, e: Event)
    requires SentinelEnds(p.stream, p.finished) && Enabled(p, e)
    ensures SentinelEnds(After(f, p, e).stream, After(f, p, e).finished)
  {
    match e
    case PutFlying(n) => PutEnds(p.stream, p.inFlight[n], p.finished);
    case Close => CloseEnds(p.stream, p.finished);
    case Take => TakeEnds(p.stream);
    case _ =>
  }

  // ---------- no duplicates, no adult results, no losses but by a full or closed stream ----------

  /** The accepted results have distinct, registered fingerprints, and are allowed. */
  ghost predicate Screened(f: Folding, seen: set<Fingerprint>, allowNsfw: bool, accepted: seq<Torrent>) {
    && (forall i, j :: 0 <= i < j < |accepted| ==> FingerprintOf(f, accepted[i]) != FingerprintOf(f, accepted[j]))
    && (forall i :: 0 <= i < |accepted| ==> FingerprintOf(f, accepted[i]) in seen && (allowNsfw || !accepted[i].adult))
  }

  lemma OfferScreens(f: Folding, p: Pipeline, t: Torrent)
    requires Screened(f, p.seen, p.allowNsfw, p.accepted) && !Ignores(f, p, t)
    ensures Screened(f, p.seen + {FingerprintOf(f, t)}, p.allowNsfw, p.accepted + [t])
  {
  }

  lemma ScreenedStep(f: Folding, p: Pipeline, e: Event)
    requires Screened(f, p.seen, p.allowNsfw, p.accepted) && Enabled(p, e)
    ensures var q := After(f, p, e); Screened(f, q.seen, q.allowNsfw, q.accepted) && q.allowNsfw == p.allowNsfw
  {
    match e
    case Offer(t) =>
      if !Ignores(f, p, t) {
        OfferScreens(f, p, t);
      }
    case _ =>
  }

  /** Every accepted result is on its way, was put, or was dropped. */
  ghost predicate Tallied(inFlight: seq<Torrent>, accepted: seq<Torrent>, emitted: seq<Torrent>, dropped: seq<Torrent>) {
    multiset(accepted) == multiset(inFlight) + multiset(emitted) + multiset(dropped)
  }

  lemma SkipTakes<T>(s: seq<T>, n: nat)
    requires n < |s|
    ensures multiset(s) == multiset(Skip(s, n)) + multiset{s[n]}
  {
    assert s == s[..n] + [s[n]] + s[n + 1..];
  }

  lemma PutTallies(inFlight: seq<Torrent>, accepted: seq<Torrent>, emitted: seq<Torrent>, dropped: seq<Torrent>, n: nat)
    requires n < |inFlight| && Tallied(inFlight, accepted, emitted, dropped)
    ensures Tallied(Skip(inFlight, n), accepted, emitted + [inFlight[n]], dropped)
    ensures Tallied(Skip(inFlight, n), accepted, emitted, dropped + [inFlight[n]])
  {
    SkipTakes(inFlight, n);
    var x, i, e, d := multiset{inFlight[n]}, multiset(Skip(inFlight, n)), multiset(emitted), multiset(dropped);
    assert (i + x) + e + d == i + (e + x) + d == i + e + (d + x);
  }

  lemma OfferTallies(inFlight: seq<Torrent>, accepted: seq<Torrent>, emitted: seq<Torrent>, dropped: seq<Torrent>, t: Torrent)
    requires Tallied(inFlight, accepted, emitted, dropped)
    ensures Tallied(inFlight + [t], accepted + [t], emitted, dropped)
  {
    var x, i, e, d := multiset{t}, multiset(inFlight), multiset(emitted), multiset(dropped);
    assert (i + x) + e + d == (i + e + d) + x;
  }

  lemma TalliedStep(f: Folding, p: Pipeline, e: Event)
    requires Tallied(p.inFlight, p.accepted, p.emitted, p.dropped) && Enabled(p, e)
    ensures var q := After(f, p, e); Tallied(q.inFlight, q.accepted, q.emitted, q.dropped)
  {
    match e
    case Offer(t) => OfferTallies(p.inFlight, p.accepted, p.emitted, p.dropped, t);
    case PutFlying(n) => PutTallies(p.inFlight, p.accepted, p.emitted, p.dropped, n);
    case _ =>
  }

  // ---------- every schedule ----------

  ghost predicate Good(f: Folding, p: Pipeline) {
    && Delivers(p.output, p.stream, p.emitted) && SentinelEnds(p.stream, p.finished)
    && Screened(f, p.seen, p.allowNsfw, p.accepted) && Tallied(p.inFlight, p.accepted, p.emitted, p.dropped)
  }

  lemma GoodStep(f: Folding, p: Pipeline, e: Event)
    requires Good(f, p) && Enabled(p, e)
    ensures Good(f, After(f, p, e)) && After(f, p, e).allowNsfw == p.allowNsfw
  {
    DeliversStep(f, p, e);
    SentinelStep(f, p, e);
    ScreenedStep(f, p, e);
    TalliedStep(f, p, e);
  }

  lemma InitialGood(f: Folding, p: Pipeline)
    requires Initial(p)
    ensures Good(f, p)
  {
  }

  lemma {:induction false} GoodRun(f: Folding, trace: seq<Pipeline>, events: seq<Event>, n: nat)
    requires IsRun(f, trace, events) && n <= |events|
    ensures Good(f, trace[n]) && trace[n].allowNsfw == trace[0].allowNsfw
  {
    if n == 0 {
      InitialGood(f, trace[0]);
    } else {
      GoodRun(f, trace, events, n - 1);
      GoodAt(f, trace, events, n);
    }
  }

  lemma GoodAt(f: Folding, trace: seq<Pipeline>, events: seq<Event>, i: nat)
    requires IsRun(f, trace, events) && 0 < i <= |events| && Good(f, trace[i - 1])
    ensures Good(f, trace[i]) && trace[i].allowNsfw == trace[i - 1].allowNsfw
  {
    assert IsStep(f, trace, events, i);
    GoodStep(f, trace[i - 1], events[i - 1]);
  }

  /** In every schedule the consumer's results and those still queued for it are what was put,
      in order, less at most the one item that close discarded; and what the sink accepted was
      put, was dropped, or is still on its way. */
  lemma OutputIsWhatWasPut(f: Folding, trace: seq<Pipeline>, events: seq<Event>, n: nat)
    requires IsRun(f, trace, events) && n <= |events|
    ensures var p := trace[n];
      && AllButOne(p.output + Results(p.stream.queue), p.emitted)
      && Tallied(p.inFlight, p.accepted, p.emitted, p.dropped)
  {
    GoodRun(f, trace, events, n);
  }

  /** The consumer takes k entries, as far as it may. */
  function AfterTakes(f: Folding, p: Pipeline, k: nat): Pipeline
    decreases k
  {
    if k == 0 || !Enabled(p, Take) then p else AfterTakes(f, After(f, p, Take), k - 1)
  }

  /** Taking all entries of a closed stream: the results in order, and the sentinel last. */
  lemma {:induction false} TakesFinish(f: Folding, p: Pipeline)
    requires p.stream.closed && !p.finished && SentinelEnds(p.stream, false)
    ensures var q := AfterTakes(f, p, |p.stream.queue|);
      q.finished && q.stream.queue == [] && q.output == p.output + Results(p.stream.queue)
    decreases |p.stream.queue|
  {
    var next, queue := After(f, p, Take), p.stream.queue;
    ResultsHead(queue);
    TakeEnds(p.stream);
    if queue[0].Result? {
      TakesFinish(f, next);
      Regroup(p.output, queue[0].torrent, Results(queue[1..]));
    } else {
      assert queue == [Sentinel];
      assert Results(queue[1..]) == [];
    }
  }

  /** In every schedule a closed stream ends in the sentinel until the consumer has finished, and
      by taking what is queued, with no further help, it finishes with just those results. */
  lemma ConsumerEnds(f: Folding, trace: seq<Pipeline>, events: seq<Event>, n: nat)
    requires IsRun(f, trace, events) && n <= |events|
    requires trace[n].stream.closed && !trace[n].finished
    ensures var p := trace[n]; var queue := p.stream.queue; var q := AfterTakes(f, p, |queue|);
      && queue != [] && queue[|queue| - 1].Sentinel?
      && q.finished && q.stream.queue == [] && q.output == p.output + Results(queue)
  {
    GoodRun(f, trace, events, n);
    TakesFinish(f, trace[n]);
  }

  /** As long as every put finds the stream open and below its capacity, nothing is dropped. */
  lemma {:induction false} OnlyRefusalsDrop(f: Folding, trace: seq<Pipeline>, events: seq<Event>, n: nat)
    requires IsRun(f, trace, events) && n <= |events|
    requires forall i :: 0 <= i < n && events[i].PutFlying? ==>
      var s := trace[i].stream; !s.closed && (s.capacity <= 0 || |s.queue| < s.capacity)
    ensures trace[n].dropped == []
  {
    if n > 0 {
      OnlyRefusalsDrop(f, trace, events, n - 1);
      assert IsStep(f, trace, events, n);
    }
  }

  // ---------- what the sink accepts ----------

  /** The deduper knows exactly the fingerprints of the accepted results. */
  ghost predicate SeenIsAccepted(f: Folding, p: Pipeline) {
    forall fp :: fp in p.seen <==> exists i :: 0 <= i < |p.accepted| && FingerprintOf(f, p.accepted[i]) == fp
  }

  lemma SeenStep(f: Folding, p: Pipeline, e: Event)
    requires SeenIsAccepted(f, p) && Enabled(p, e)
    ensures SeenIsAccepted(f, After(f, p, e))
  {
    if e.Offer? {
      SeenSnoc(f, p, After(f, p, e), e.torrent);
    }
  }

  lemma SeenSnoc(f: Folding, p: Pipeline, q: Pipeline, t: Torrent)
    requires SeenIsAccepted(f, p)
    requires (q.seen == p.seen && q.accepted == p.accepted)
          || (q.seen == p.seen + {FingerprintOf(f, t)} && q.accepted == p.accepted + [t])
    ensures SeenIsAccepted(f, q)
  {
    if q.accepted != p.accepted {
      forall fp ensures fp in q.seen <==> exists i :: 0 <= i < |q.accepted| && FingerprintOf(f, q.accepted[i]) == fp {
        if fp in p.seen {
          var i :| 0 <= i < |p.accepted| && FingerprintOf(f, p.accepted[i]) == fp;
          assert q.accepted[i] == p.accepted[i];
        }
        if fp == FingerprintOf(f, t) {
          assert q.accepted[|p.accepted|] == t;
        }
        if i :| 0 <= i < |q.accepted| && FingerprintOf(f, q.accepted[i]) == fp {
          assert i < |p.accepted| ==> q.accepted[i] == p.accepted[i];
        }
      }
    }
  }

  lemma SeenAt(f: Folding, trace: seq<Pipeline>, events: seq<Event>, i: nat)
    requires IsRun(f, trace, events) && 0 < i <= |events| && SeenIsAccepted(f, trace[i - 1])
    ensures SeenIsAccepted(f, trace[i])
  {
    assert IsStep(f, trace, events, i);
    SeenStep(f, trace[i - 1], events[i - 1]);
  }

  lemma {:induction false} SeenRun(f: Folding, trace: seq<Pipeline>, events: seq<Event>, n: nat)
    requires IsRun(f, trace, events) && n <= |events|
    ensures SeenIsAccepted(f, trace[n])
  {
    if n > 0 {
      SeenRun(f, trace, events, n - 1);
      SeenAt(f, trace, events, n);
    }
  }

  ghost predicate CancelledBy(events: seq<Event>, n: nat)
    requires n <= |events|
  {
    exists i :: 0 <= i < n && events[i] == Cancel
  }

  lemma CancelAt(f: Folding, trace: seq<Pipeline>, events: seq<Event>, i: nat)
    requires IsRun(f, trace, events) && 0 < i <= |events|
    ensures trace[i].cancelled <==> trace[i - 1].cancelled || events[i - 1] == Cancel
  {
    assert IsStep(f, trace, events, i);
  }

  lemma {:induction false} CancelledIff(f: Folding, trace: seq<Pipeline>, events: seq<Event>, n: nat)
    requires IsRun(f, trace, events) && n <= |events|
    ensures trace[n].cancelled <==> CancelledBy(events, n)
  {
    if n > 0 {
      CancelledIff(f, trace, events, n - 1);
      CancelAt(f, trace, events, n);
      if CancelledBy(events, n) && !CancelledBy(events, n - 1) {
        assert events[n - 1] == Cancel;
      }
    }
  }

  /** A result offered to the sink is accepted, and is then on its way to the stream, exactly if
      nothing has cancelled the request, it is allowed, and no accepted result has its fingerprint.
      Otherwise the offer changes nothing. */
  lemma OfferIsAccepted(f: Folding, trace: seq<Pipeline>, events: seq<Event>, n: nat, t: Torrent)
    requires IsRun(f, trace, events) && 0 < n <= |events| && events[n - 1] == Offer(t)
    ensures var before, after := trace[n - 1], trace[n];
      if !CancelledBy(events, n - 1) && (trace[0].allowNsfw || !t.adult)
         && forall i :: 0 <= i < |before.accepted| ==> FingerprintOf(f, before.accepted[i]) != FingerprintOf(f, t)
      then after.accepted == before.accepted + [t] && after.inFlight == before.inFlight + [t]
        && after.stream == before.stream && after.emitted == before.emitted && after.dropped == before.dropped
      else after == before
  {
    CancelledIff(f, trace, events, n - 1);
    SeenRun(f, trace, events, n - 1);
    GoodRun(f, trace, events, n - 1);
    assert IsStep(f, trace, events, n);
  }

  /** A registered result is put exactly if the stream is open and below its capacity; otherwise it
      is dropped. */
  lemma PutOrDrop(f: Folding, p: Pipeline, n: nat)
    requires n < |p.inFlight|
    ensures Enabled(p, PutFlying(n))
    ensures var q, t := After(f, p, PutFlying(n)), p.inFlight[n];
      && q.inFlight == Skip(p.inFlight, n)
      && if !p.stream.closed && (p.stream.capacity <= 0 || |p.stream.queue| < p.stream.capacity)
         then q.emitted == p.emitted + [t] && q.stream.queue == p.stream.queue + [Result(t)] && q.dropped == p.dropped
         else q.dropped == p.dropped + [t] && q.stream == p.stream && q.emitted == p.emitted
  {
  }

  /** Producers, the closing pool, the clock and the caller act at any time, and the consumer reads
      whenever it has not finished and something is queued. */
  lemma NobodyIsBlocked(p: Pipeline, t: Torrent)
    ensures Enabled(p, Offer(t)) && Enabled(p, Close) && Enabled(p, Deadline) && Enabled(p, Cancel)
    ensures Enabled(p, Take) <==> !p.finished && p.stream.queue != []
  {
  }

  // ---------- the end of a request ----------

  lemma EndAt(f: Folding, trace: seq<Pipeline>, events: seq<Event>, i: nat)
    requires IsRun(f, trace, events) && 0 < i <= |events|
    ensures events[i - 1] == Close ==> trace[i].stream.closed
    ensures events[i - 1] == Deadline ==> trace[i].finished
    ensures trace[i - 1].stream.closed ==> trace[i].stream.closed && trace[i].emitted == trace[i - 1].emitted
    ensures trace[i - 1].finished ==> trace[i].finished && trace[i].output == trace[i - 1].output
  {
    assert IsStep(f, trace, events, i);
  }

  /** After a close nothing more is put, and after the deadline nothing more is read. */
  lemma {:induction false} EndIsFinal(f: Folding, trace: seq<Pipeline>, events: seq<Event>, m: nat, n: nat)
    requires IsRun(f, trace, events) && m < n <= |events|
    ensures events[m] == Close ==> trace[n].stream.closed && trace[n].emitted == trace[m + 1].emitted
    ensures events[m] == Deadline ==> trace[n].finished && trace[n].output == trace[m + 1].output
    decreases n
  {
    EndAt(f, trace, events, n);
    if n > m + 1 {
      EndIsFinal(f, trace, events, m, n - 1);
    }
  }

  /** The consumer never sees two results with one fingerprint, nor an adult one when those are
      off. */
  lemma OutputIsClean(f: Folding, trace: seq<Pipeline>, events: seq<Event>, n: nat)
    requires IsRun(f, trace, events) && n <= |events|
    ensures forall i, j :: 0 <= i < j < |trace[n].output| ==>
              FingerprintOf(f, trace[n].output[i]) != FingerprintOf(f, trace[n].output[j])
    ensures !trace[0].allowNsfw ==> forall t :: t in trace[n].output ==> !t.adult
  {
    GoodRun(f, trace, events, n);
    var p := trace[n];
    OutputIsAccepted(p);
    forall i, j | 0 <= i < j < |p.output| ensures FingerprintOf(f, p.output[i]) != FingerprintOf(f, p.output[j]) {
      TwoOfAccepted(p.accepted, p.output, i, j);
    }
    forall t | t in p.output ensures p.allowNsfw || !t.adult {
      MemberOfAccepted(p.accepted, p.output, t);
    }
  }

  /** What the consumer has is a part of what the sink accepted, with multiplicities. */
  lemma OutputIsAccepted(p: Pipeline)
    requires AllButOne(p.output + Results(p.stream.queue), p.emitted)
    requires Tallied(p.inFlight, p.accepted, p.emitted, p.dropped)
    ensures multiset(p.output) <= multiset(p.accepted)
  {
    var seen := p.output + Results(p.stream.queue);
    assert multiset(seen) == multiset(p.output) + multiset(Results(p.stream.queue));
    if seen != p.emitted {
      var i :| 0 <= i < |p.emitted| && seen == Skip(p.emitted, i);
      SkipTakes(p.emitted, i);
    }
  }

  lemma MemberOfAccepted(accepted: seq<Torrent>, output: seq<Torrent>, t: Torrent)
    requires multiset(output) <= multiset(accepted) && t in output
    ensures exists i :: 0 <= i < |accepted| && accepted[i] == t
  {
    assert t in multiset(output) && t in multiset(accepted);
  }

  lemma LessOne<T>(a: multiset<T>, b: multiset<T>, x: T)
    requires a + multiset{x} <= b + multiset{x}
    ensures a <= b
  {
    forall t | t in a ensures a[t] <= b[t] {
      assert (a + multiset{x})[t] <= (b + multiset{x})[t];
    }
  }

  /** Two places of the output stem from two places of the accepted results. */
  lemma TwoOfAccepted(accepted: seq<Torrent>, output: seq<Torrent>, i: nat, j: nat)
    requires multiset(output) <= multiset(accepted) && i < j < |output|
    ensures exists k, l :: 0 <= k < |accepted| && 0 <= l < |accepted| && k != l && accepted[k] == output[i] && accepted[l] == output[j]
  {
    MemberOfAccepted(accepted, output, output[i]);
    var k :| 0 <= k < |accepted| && accepted[k] == output[i];
    SkipTakes(output, i);
    SkipTakes(accepted, k);
    assert Skip(output, i)[j - 1] == output[j];
    LessOne(multiset(Skip(output, i)), multiset(Skip(accepted, k)), output[i]);
    MemberOfAccepted(Skip(accepted, k), Skip(output, i), output[j]);
    var m :| 0 <= m < |accepted| - 1 && Skip(accepted, k)[m] == output[j];
    var l := if m < k then m else m + 1;
    assert accepted[l] == output[j] && l != k;
  }

  // ---------- the objects ----------

  class ResultStream {
    const capacity: int
    var queue: seq<Entry>
    var closed: bool

    ghost function State(): Stream
      reads this
    {
      Stream(capacity, queue, closed)
    }

    ghost predicate Valid()
      reads this
    {
      capacity <= 0 || |queue| <= capacity
    }

    constructor (capacity: int)
      ensures Valid() && State() == Stream(capacity, [], false)
    {
      this.capacity, queue, closed := capacity, [], false;
    }

    method PutEntry(e: Entry) returns (full: bool)
      requires Valid()
      modifies this`queue
      ensures Valid()
      ensures full <==> !HasRoom(old(State()))
      ensures queue == if full then old(queue) else old(queue) + [e]
    {
      full := capacity > 0 && |queue| >= capacity;
      if !full {
        queue := queue + [e];
      }
    }

    method Put(t: Torrent)
      requires Valid()
      modifies this`queue
      ensures Valid() && State() == AfterPut(old(State()), t)
    {
      if closed {
        return;
      }
      var full := PutEntry(Result(t));
    }

    method Close()
      requires Valid()
      modifies this
      ensures Valid() && State() == AfterClose(old(State()))
    {
      if closed {
        return;
      }
      closed := true;
      var full := PutEntry(Sentinel);
      if full {
        queue := queue[1..];
        full := PutEntry(Sentinel);  // finds room
      }
    }
  }

  class ResultDeduper {
    const folding: Folding
    var seen: set<Fingerprint>

    constructor (folding: Folding)
      ensures this.folding == folding && seen == {}
    {
      this.folding, seen := folding, {};
    }

    /** The fingerprint of a new result; None for a duplicate. */
    method Register(t: Torrent) returns (fp: Option<Fingerprint>)
      modifies this`seen
      ensures fp == if FingerprintOf(folding, t) in old(seen) then None else Some(FingerprintOf(folding, t))
      ensures seen == old(seen) + {FingerprintOf(folding, t)}
    {
      var mark := FingerprintOf(folding, t);
      if mark in seen {
        return None;
      }
      seen := seen + {mark};
      fp := Some(mark);
    }
  }
}
