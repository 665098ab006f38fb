/**
 Connection accounting of adapters/persistence/base.py. The validity test and the factory are
 answers of the environment, in any combination. Connections are numbered in the order in which
 the factory makes them.
 */
module ConnectionPool {
  import opened Wrappers
  import opened Counting

  datatype Idle = Idle(conn: nat, since: real)

  /** `created` is the pool's own counter; `out` are the connections handed to callers and
      `closed` those it has closed. */
  datatype Pool = Pool(size: nat, maxIdle: real, idle: seq<Idle>, created: int, out: set<nat>, closed: set<nat>, made: nat)

  datatype Event =
    | Get(valid: bool, factoryWorks: bool)
    | Return(conn: nat, discard: bool, valid: bool, now: real)
    | HealthCheck(at: real, healthy: set<nat>)
    | Drain  // drain() and close_all()

  // ---------- the operations on values ----------

  /** A get and what it hands out; None stands for the exception. When nothing is idle and the
      counter is at the limit, the wait holds the lock every return needs, so it times out. */
  function AfterGet(p: Pool, valid: bool, factoryWorks: bool): (Pool, Option<nat>) {
    if p.idle != [] then
      var rest := p.(idle := p.idle[1..]);
      if valid then (rest.(out := p.out + {p.idle[0].conn}), Some(p.idle[0].conn))
      else
        var shut := rest.(closed := p.closed + {p.idle[0].conn});
        if factoryWorks then (shut.(out := p.out + {p.made}, created := p.created + 1, made := p.made + 1), Some(p.made))
        else (shut, None)
    else if p.created < p.size && factoryWorks then
      (p.(out := p.out + {p.made}, created := p.created + 1, made := p.made + 1), Some(p.made))
    else (p, None)
  }

  function AfterReturn(p: Pool, conn: nat, discard: bool, valid: bool, now: real): Pool {
    var q := p.(out := p.out - {conn});
    if discard then q.(closed := p.closed + {conn}, created := if p.created - 1 > 0 then p.created - 1 else 0)
    else if |p.idle| < p.size && valid then q.(idle := p.idle + [Idle(conn, now)])
    else q.(closed := p.closed + {conn}, created := p.created - 1)
  }

  predicate Keeps(p: Pool, i: Idle, now: real, valid: set<nat>) {
    !(now - i.since > p.maxIdle) && i.conn in valid
  }

  function Kept(p: Pool, idle: seq<Idle>, now: real, valid: set<nat>): (r: seq<Idle>)
    ensures |r| <= |idle|
  {
    if idle == [] then []
    else
      var last := idle[|idle| - 1];
      var front := Kept(p, idle[..|idle| - 1], now, valid);
      if Keeps(p, last, now, valid) then front + [last] else front
  }

  function Conns(idle: seq<Idle>): set<nat> {
    set i | i in idle :: i.conn
  }

  function ShutBy(p: Pool, idle: seq<Idle>, now: real, valid: set<nat>): set<nat> {
    if idle == [] then {}
    else
      var last := idle[|idle| - 1];
      var front := ShutBy(p, idle[..|idle| - 1], now, valid);
      if Keeps(p, last, now, valid) then front else front + {last.conn}
  }

  function AfterHealthCheck(p: Pool, now: real, valid: set<nat>): Pool {
    var kept := Kept(p, p.idle, now, valid);
    p.(idle := kept, created := p.created - (|p.idle| - |kept|), closed := p.closed + ShutBy(p, p.idle, now, valid))
  }

  function After(p: Pool, e: Event): Pool {
    match e
    case Get(valid, works) => AfterGet(p, valid, works).0
    case Return(conn, discard, valid, now) => AfterReturn(p, conn, discard, valid, now)
    case HealthCheck(now, valid) => AfterHealthCheck(p, now, valid)
    case Drain => p.(idle := [], created := 0, closed := p.closed + Conns(p.idle))
  }

  /** Callers only return what they hold. */
  predicate Allowed(p: Pool, e: Event) {
    e.Return? ==> e.conn in p.out
  }

  /** The i-th step of a run. */
  ghost predicate IsStep(trace: seq<Pool>, events: seq<Event>, i: nat)
    requires 0 < i <= |events| && |trace| == |events| + 1
  {
    Allowed(trace[i - 1], events[i - 1]) && trace[i] == After(trace[i - 1], events[i - 1])
  }

  ghost predicate IsRun(trace: seq<Pool>, events: seq<Event>) {
    && |trace| == |events| + 1
    && forall i :: 0 < i <= |events| ==> IsStep(trace, events, i)
  }

  /** Drains among the first n events. */
  function Drains(events: seq<Event>, n: nat): nat
    requires n <= |events|
  {
    if n == 0 then 0 else Drains(events, n - 1) + if events[n - 1].Drain? then 1 else 0
  }

  // ---------- every connection has one holder ----------

  function Live(p: Pool): nat {
    |p.idle| + |p.out|
  }

  function Numbered(n: nat): set<nat> {
    if n == 0 then {} else Numbered(n - 1) + {n - 1}
  }

  lemma {:induction false} NumberedBelow(n: nat)
    ensures n !in Numbered(n) && forall c :: c in Numbered(n) ==> c < n
  {
    if n > 0 {
      NumberedBelow(n - 1);
    }
  }

  /** Every connection ever made is idle, once, or with a caller, or closed, and only one of
      these: none is handed out twice and none is dropped without being closed. */
  ghost predicate OneHolder(p: Pool) {
    && Partition(Conns(p.idle), p.out, p.closed, Numbered(p.made))
    && Unrepeated(p.idle) && |p.idle| <= p.size
  }

  ghost predicate Unrepeated(idle: seq<Idle>) {
    forall i, j :: 0 <= i < j < |idle| ==> idle[i].conn != idle[j].conn
  }

  ghost predicate Partition(a: set<nat>, b: set<nat>, c: set<nat>, all: set<nat>) {
    a + b + c == all && a !! b && a !! c && b !! c
  }

  lemma ConnsSnoc(idle: seq<Idle>, i: Idle)
    ensures Conns(idle + [i]) == Conns(idle) + {i.conn}
    ensures Unrepeated(idle) && i.conn !in Conns(idle) ==> Unrepeated(idle + [i])
  {
  }

  lemma ConnsCons(idle: seq<Idle>)
    requires idle != []
    ensures Conns(idle) == {idle[0].conn} + Conns(idle[1..])
    ensures Unrepeated(idle) ==> Unrepeated(idle[1..]) && idle[0].conn !in Conns(idle[1..])
  {
    assert idle == [idle[0]] + idle[1..];
  }

  /** `kept` and `shut` share the connections of `all` between them. */
  ghost predicate Splits(kept: seq<Idle>, shut: set<nat>, all: set<nat>) {
    Unrepeated(kept) && Conns(kept) + shut == all && Conns(kept) !! shut
  }

  lemma SplitsOneMore(kept: seq<Idle>, shut: set<nat>, all: set<nat>, last: Idle)
    requires Splits(kept, shut, all) && last.conn !in all
    ensures Splits(kept + [last], shut, all + {last.conn}) && Splits(kept, shut + {last.conn}, all + {last.conn})
  {
    ConnsSnoc(kept, last);
  }

  /** A health check splits the idle connections into kept and closed ones. */
  lemma {:induction false} KeptAndShut(p: Pool, idle: seq<Idle>, now: real, valid: set<nat>)
    requires Unrepeated(idle)
    ensures Splits(Kept(p, idle, now, valid), ShutBy(p, idle, now, valid), Conns(idle))
  {
    if idle != [] {
      var front, last := idle[..|idle| - 1], idle[|idle| - 1];
      KeptAndShut(p, front, now, valid);
      LastApart(idle, front, last);
      SplitsOneMore(Kept(p, front, now, valid), ShutBy(p, front, now, valid), Conns(front), last);
    }
  }

  lemma LastApart(idle: seq<Idle>, front: seq<Idle>, last: Idle)
    requires Unrepeated(idle) && idle != [] && front == idle[..|idle| - 1] && last == idle[|idle| - 1]
    ensures last.conn !in Conns(front) && Conns(idle) == Conns(front) + {last.conn}
  {
    assert idle == front + [last];
    ConnsSnoc(front, last);
  }

  lemma Move(a: set<nat>, b: set<nat>, c: set<nat>, all: set<nat>, x: nat)
    requires Partition(a, b, c, all) && x in a
    ensures Partition(a - {x}, b + {x}, c, all) && Partition(a - {x}, b, c + {x}, all)
  {
  }

  lemma Add(a: set<nat>, b: set<nat>, c: set<nat>, all: set<nat>, x: nat)
    requires Partition(a, b, c, all) && x !in all
    ensures Partition(a, b + {x}, c, all + {x})
  {
  }

  lemma GetKeepsHolders(p: Pool, valid: bool, works: bool)
    requires OneHolder(p)
    ensures OneHolder(AfterGet(p, valid, works).0)
  {
    NumberedBelow(p.made);
    var before := Conns(p.idle);
    if p.idle != [] {
      var x := p.idle[0].conn;
      ConnsCons(p.idle);
      assert before - {x} == Conns(p.idle[1..]);
      Move(before, p.out, p.closed, Numbered(p.made), x);
      Add(before - {x}, p.out, p.closed + {x}, Numbered(p.made), p.made);
    } else {
      Add(before, p.out, p.closed, Numbered(p.made), p.made);
    }
  }

  lemma ReturnKeepsHolders(p: Pool, conn: nat, discard: bool, valid: bool, now: real)
    requires OneHolder(p) && conn in p.out
    ensures OneHolder(AfterReturn(p, conn, discard, valid, now))
  {
    ConnsSnoc(p.idle, Idle(conn, now));
  }

  lemma OneHolderStep(p: Pool, e: Event)
    requires OneHolder(p) && Allowed(p, e)
    ensures OneHolder(After(p, e))
  {
    match e
    case Get(valid, works) => GetKeepsHolders(p, valid, works);
    case Return(conn, discard, valid, now) => ReturnKeepsHolders(p, conn, discard, valid, now);
    case HealthCheck(now, valid) => KeptAndShut(p, p.idle, now, valid);
    case Drain =>
  }

  /** What a get hands out nobody else holds. */
  lemma GetIsExclusive(p: Pool, valid: bool, works: bool)
    requires OneHolder(p)
    ensures var (q, r) := AfterGet(p, valid, works);
      if r.None? then q.out == p.out
      else r.value !in p.out && q.out == p.out + {r.value} && r.value !in Conns(q.idle) && r.value !in q.closed
  {
    OneHolderStep(p, Get(valid, works));
    NumberedBelow(p.made);
    if p.idle != [] {
      ConnsCons(p.idle);
    }
  }

  // ---------- the bound ----------

  /** `adrift` counts checked-out connections that a drain forgot, at most `limit` of them. */
  ghost predicate Bounded(p: Pool, adrift: nat, limit: nat) {
    && Live(p) <= p.created + adrift
    && Live(p) <= p.size + adrift
    && adrift <= limit
  }

  lemma BoundedGet(p: Pool, valid: bool, works: bool, adrift: nat, limit: nat)
    requires OneHolder(p) && Bounded(p, adrift, limit)
    ensures Bounded(AfterGet(p, valid, works).0, adrift, limit)
  {
    if p.idle != [] {
      OneMore(p.out, p.idle[0].conn);
    }
    OneMore(p.out, p.made);
  }

  lemma OneMore(out: set<nat>, c: nat)
    ensures |out + {c}| <= |out| + 1
  {
  }

  lemma BoundedStep(p: Pool, e: Event, adrift: nat, limit: nat)
    requires OneHolder(p) && Bounded(p, adrift, limit) && Allowed(p, e)
    ensures Bounded(After(p, e), if e.Drain? then |p.out| else adrift, limit + if e.Drain? then p.size else 0)
  {
    match e
    case Get(valid, works) => BoundedGet(p, valid, works, adrift, limit);
    case Return(conn, _, _, _) =>
      assert |p.out - {conn}| == |p.out| - 1;
    case HealthCheck(_, _) =>
    case Drain =>
  }

  lemma {:induction false} OneHolderRun(trace: seq<Pool>, events: seq<Event>, n: nat)
    requires IsRun(trace, events) && n <= |events| && OneHolder(trace[0])
    ensures OneHolder(trace[n]) && trace[n].size == trace[0].size
  {
    if n > 0 {
      OneHolderRun(trace, events, n - 1);
      OneHolderAt(trace, events, n);
    }
  }

  lemma OneHolderAt(trace: seq<Pool>, events: seq<Event>, i: nat)
    requires IsRun(trace, events) && 0 < i <= |events| && OneHolder(trace[i - 1])
    ensures OneHolder(trace[i]) && trace[i].size == trace[i - 1].size
  {
    assert IsStep(trace, events, i);
    OneHolderStep(trace[i - 1], events[i - 1]);
  }

  /** The inequality after d drains: each leaves at most a pool's size adrift. */
  ghost predicate Slack(p: Pool, adrift: nat, d: nat) {
    Bounded(p, adrift, Times(d, p.size)) && (d == 0 ==> adrift == 0)
  }

  lemma SlackAt(trace: seq<Pool>, events: seq<Event>, i: nat, adrift: nat) returns (adrift': nat)
    requires IsRun(trace, events) && 0 < i <= |events| && Initial(trace[0])
    requires Slack(trace[i - 1], adrift, Drains(events, i - 1))
    ensures Slack(trace[i], adrift', Drains(events, i))
  {
    OneHolderBefore(trace, events, i);
    adrift' := SlackStep(trace[i - 1], events[i - 1], trace[i], adrift, Drains(events, i - 1), Drains(events, i)) by {
      assert IsStep(trace, events, i);
    }
  }

  lemma OneHolderBefore(trace: seq<Pool>, events: seq<Event>, i: nat)
    requires IsRun(trace, events) && 0 < i <= |events| && Initial(trace[0])
    ensures OneHolder(trace[i - 1])
  {
    InitiallyBounded(trace[0]);
    OneHolderRun(trace, events, i - 1);
  }

  lemma SlackStep(p: Pool, e: Event, q: Pool, adrift: nat, d: nat, d': nat) returns (adrift': nat)
    requires OneHolder(p) && Allowed(p, e) && q == After(p, e) && Slack(p, adrift, d)
    requires d' == if e.Drain? then d + 1 else d
    ensures Slack(q, adrift', d')
  {
    BoundedStep(p, e, adrift, Times(d, p.size));
    TimesMore(d, p.size);
    adrift' := if e.Drain? then |p.out| else adrift;
  }

  lemma {:induction false} BoundedRun(trace: seq<Pool>, events: seq<Event>, n: nat) returns (adrift: nat)
    requires IsRun(trace, events) && n <= |events| && Initial(trace[0])
    ensures Slack(trace[n], adrift, Drains(events, n))
  {
    if n == 0 {
      InitiallyBounded(trace[0]);
      adrift := 0;
    } else {
      adrift := BoundedRun(trace, events, n - 1);
      adrift := SlackAt(trace, events, n, adrift);
    }
  }

  /** k * size, in the form in which it grows drain by drain. */
  function Times(k: nat, size: nat): nat {
    if k == 0 then 0 else Times(k - 1, size) + size
  }

  lemma {:induction false} TimesIsProduct(k: nat, size: nat)
    ensures Times(k, size) == k * size
  {
    if k > 0 {
      TimesIsProduct(k - 1, size);
    }
  }

  /** A pool as its constructor leaves it: some of the first connections were made. */
  ghost predicate Initial(p: Pool) {
    && p.out == {} && p.closed == {} && p.created == p.made == |p.idle| <= p.size
    && Conns(p.idle) == Numbered(p.made) && Unrepeated(p.idle)
  }

  /** The factory's next connection, made before the pool is used. */
  lemma InitialOneMore(p: Pool, now: real)
    requires Initial(p) && |p.idle| < p.size
    ensures Initial(p.(idle := p.idle + [Idle(p.made, now)], created := p.created + 1, made := p.made + 1))
  {
    ConnsSnoc(p.idle, Idle(p.made, now));
    NumberedBelow(p.made);
  }

  /** With d drains, idle and checked-out connections together never exceed (d + 1) * size; with
      none they are also covered by the counter. */
  lemma PoolNeverOverflows(trace: seq<Pool>, events: seq<Event>, n: nat)
    requires IsRun(trace, events) && n <= |events| && Initial(trace[0])
    ensures Live(trace[n]) <= (Drains(events, n) + 1) * trace[0].size
    ensures Drains(events, n) == 0 ==> Live(trace[n]) <= trace[n].created
  {
    var adrift := BoundedRun(trace, events, n);
    SizeStays(trace, events, n);
    BoundOfSlack(trace[n], adrift, Drains(events, n), trace[0].size);
    TimesIsProduct(Drains(events, n) + 1, trace[0].size);
  }

  /** The counter never falls below what the drains so far can explain; without one it never
      falls below zero. */
  lemma CounterHasAFloor(trace: seq<Pool>, events: seq<Event>, n: nat)
    requires IsRun(trace, events) && n <= |events| && Initial(trace[0])
    ensures trace[n].created + Drains(events, n) * trace[0].size >= 0
  {
    var adrift := BoundedRun(trace, events, n);
    SizeStays(trace, events, n);
    FloorOfSlack(trace[n], adrift, Drains(events, n), trace[0].size);
    TimesIsProduct(Drains(events, n), trace[0].size);
  }

  lemma FloorOfSlack(p: Pool, adrift: nat, d: nat, size: nat)
    requires Slack(p, adrift, d) && p.size == size
    ensures p.created + Times(d, size) >= 0
  {
  }

  /** Handed out before a drain and returned invalid after it, a connection takes the counter below
      zero: only a discard stops there. */
  lemma CounterMayBeNegative() returns (trace: seq<Pool>, events: seq<Event>)
    ensures IsRun(trace, events) && Initial(trace[0]) && Drains(events, |events|) == 1
    ensures trace[|events|].created == -1
  {
    var p := Pool(1, 1.0, [Idle(0, 0.0)], 1, {}, {}, 1);
    assert Conns(p.idle) == {0} == Numbered(1);
    var out := After(p, Get(true, true));
    assert p.idle[0] == Idle(0, 0.0) && 0 in out.out;
    var drained := After(out, Drain);
    var back := After(drained, Return(0, false, false, 0.0));
    trace, events := [back], [];
    trace, events := RunCons(drained, Return(0, false, false, 0.0), trace, events);
    trace, events := RunCons(out, Drain, trace, events);
    trace, events := RunCons(p, Get(true, true), trace, events);
  }

  lemma SizeStays(trace: seq<Pool>, events: seq<Event>, n: nat)
    requires IsRun(trace, events) && n <= |events| && Initial(trace[0])
    ensures trace[n].size == trace[0].size
  {
    InitiallyBounded(trace[0]);
    OneHolderRun(trace, events, n);
  }

  lemma BoundOfSlack(p: Pool, adrift: nat, d: nat, size: nat)
    requires Slack(p, adrift, d) && p.size == size
    ensures Live(p) <= Times(d + 1, size)
    ensures d == 0 ==> Live(p) <= p.created
  {
    TimesMore(d, size);
  }

  lemma InitiallyBounded(p: Pool)
    requires Initial(p)
    ensures OneHolder(p) && Slack(p, 0, 0)
  {
  }

  lemma TimesMore(k: nat, size: nat)
    ensures Times(k + 1, size) == Times(k, size) + size
  {
  }

  // ---------- the bound is reached ----------

  /** A run from p with d drains, to a pool with `live` connections. */
  ghost predicate Reaches(p: Pool, trace: seq<Pool>, events: seq<Event>, d: nat, live: nat) {
    IsRun(trace, events) && trace[0] == p && Drains(events, |events|) == d && Live(trace[|events|]) == live
  }

  lemma ReachesAfterGet(p: Pool, q: Pool, tr: seq<Pool>, es: seq<Event>, d: nat, live: nat)
      returns (trace: seq<Pool>, events: seq<Event>)
    requires Reaches(q, tr, es, d, live) && q == After(p, Get(true, true))
    ensures Reaches(p, trace, events, d, live)
  {
    trace, events := RunCons(p, Get(true, true), tr, es);
  }

  lemma ReachesAfterDrain(p: Pool, q: Pool, tr: seq<Pool>, es: seq<Event>, d: nat, live: nat)
      returns (trace: seq<Pool>, events: seq<Event>)
    requires d > 0 && Reaches(q, tr, es, d - 1, live) && q == After(p, Drain)
    ensures Reaches(p, trace, events, d, live)
  {
    trace, events := RunCons(p, Drain, tr, es);
  }

  /** For every number of drains d some run has the initial connections, `room` more, and a whole
      pool for every drain alive at once: after a drain the pool makes a full set again while the
      old set is still checked out. */
  lemma {:induction false} ReachMore(p: Pool, room: nat, d: nat) returns (trace: seq<Pool>, events: seq<Event>)
    requires OneHolder(p) && p.created == p.size - room
    ensures Reaches(p, trace, events, d, Live(p) + room + Times(d, p.size))
    decreases d, room, |p.idle|
  {
    if p.idle != [] {
      var q := After(p, Get(true, true));
      TakeIdle(p, q);
      trace, events := ReachMore(q, room, d);
      trace, events := ReachesAfterGet(p, q, trace, events, d, Live(p) + room + Times(d, p.size));
    } else if room > 0 {
      var q := After(p, Get(true, true));
      MakeOne(p, q);
      trace, events := ReachMore(q, room - 1, d);
      trace, events := ReachesAfterGet(p, q, trace, events, d, Live(p) + room + Times(d, p.size));
    } else if d > 0 {
      var q := After(p, Drain);
      ForgetAll(p, q);
      trace, events := ReachMore(q, p.size, d - 1);
      TimesMore(d - 1, p.size);
      trace, events := ReachesAfterDrain(p, q, trace, events, d, Live(p) + room + Times(d, p.size));
    } else {
      trace, events := [p], [];
    }
  }

  /** The bound is reached from every pool that its constructor may leave, for every d. */
  lemma BoundIsReached(p: Pool, d: nat) returns (trace: seq<Pool>, events: seq<Event>)
    requires Initial(p)
    ensures Reaches(p, trace, events, d, (d + 1) * p.size)
  {
    InitiallyBounded(p);
    TimesMore(d, p.size);
    TimesIsProduct(d + 1, p.size);
    trace, events := ReachMore(p, p.size - |p.idle|, d);
    assert Live(p) + (p.size - |p.idle|) + Times(d, p.size) == (d + 1) * p.size;
  }

  lemma TakeIdle(p: Pool, q: Pool)
    requires OneHolder(p) && p.idle != [] && q == After(p, Get(true, true))
    ensures OneHolder(q) && |q.idle| == |p.idle| - 1 && q.created == p.created && q.size == p.size && Live(q) == Live(p)
  {
    OneHolderStep(p, Get(true, true));
    ConnsCons(p.idle);
    assert |p.out + {p.idle[0].conn}| == |p.out| + 1;
  }

  lemma ForgetAll(p: Pool, q: Pool)
    requires OneHolder(p) && p.idle == [] && q == After(p, Drain)
    ensures OneHolder(q) && q.created == 0 && q.size == p.size && Live(q) == Live(p)
  {
    OneHolderStep(p, Drain);
  }

  lemma MakeOne(p: Pool, q: Pool)
    requires OneHolder(p) && p.idle == [] && p.created < p.size && q == After(p, Get(true, true))
    ensures OneHolder(q) && q.idle == [] && q.created == p.created + 1 && q.size == p.size && Live(q) == Live(p) + 1
  {
    NumberedBelow(p.made);
    OneHolderStep(p, Get(true, true));
    assert |p.out + {p.made}| == |p.out| + 1;
  }

  lemma RunCons(p: Pool, e: Event, tr: seq<Pool>, es: seq<Event>) returns (trace: seq<Pool>, events: seq<Event>)
    requires IsRun(tr, es) && Allowed(p, e) && tr[0] == After(p, e)
    ensures IsRun(trace, events) && trace[0] == p && |events| == |es| + 1 && trace[|events|] == tr[|es|]
    ensures events == [e] + es
    ensures Drains(events, |events|) == Drains(es, |es|) + if e.Drain? then 1 else 0
  {
    trace, events := [p] + tr, [e] + es;
    forall i | 0 < i <= |events| ensures IsStep(trace, events, i) {
      if i > 1 {
        assert IsStep(tr, es, i - 1);
      }
    }
    DrainsCons(e, es, |es|);
  }

  lemma {:induction false} DrainsCons(e: Event, es: seq<Event>, n: nat)
    requires n <= |es|
    ensures Drains([e] + es, n + 1) == Drains(es, n) + if e.Drain? then 1 else 0
  {
    if n == 0 {
      assert Drains([e] + es, 0) == 0;
    } else {
      DrainsCons(e, es, n - 1);
    }
  }

  // ---------- the counter leaks ----------

  /** How often, in the first n events, a get met an idle connection that failed its test. */
  function InvalidGets(trace: seq<Pool>, events: seq<Event>, n: nat): nat
    requires n <= |events| <= |trace|
  {
    if n == 0 then 0
    else
      InvalidGets(trace, events, n - 1) +
      if events[n - 1].Get? && trace[n - 1].idle != [] && !events[n - 1].valid then 1 else 0
  }

  function Leak(p: Pool): int {
    p.created - Live(p)
  }

  lemma LeakOfGet(p: Pool, valid: bool, works: bool)
    requires OneHolder(p)
    ensures Leak(AfterGet(p, valid, works).0) == Leak(p) + if p.idle != [] && !valid then 1 else 0
  {
    NumberedBelow(p.made);
    assert |p.out + {p.made}| == |p.out| + 1;
    if p.idle != [] {
      ConnsCons(p.idle);
      assert |p.out + {p.idle[0].conn}| == |p.out| + 1;
    }
  }

  lemma LeakStep(p: Pool, e: Event)
    requires OneHolder(p) && Leak(p) >= 0 && Allowed(p, e) && !e.Drain?
    ensures Leak(After(p, e)) == Leak(p) + if e.Get? && p.idle != [] && !e.valid then 1 else 0
  {
    match e
    case Get(valid, works) => LeakOfGet(p, valid, works);
    case Return(conn, _, _, _) => assert |p.out - {conn}| == |p.out| - 1;
    case HealthCheck(_, _) =>
  }

  /** Until a drain the counter overstates the live connections by exactly the number of invalid
      ones that gets have replaced or lost: nothing else makes it drift. */
  lemma {:induction false} LeakIsExact(trace: seq<Pool>, events: seq<Event>, n: nat)
    requires IsRun(trace, events) && n <= |events| && Initial(trace[0]) && Drains(events, n) == 0
    ensures Leak(trace[n]) == InvalidGets(trace, events, n)
  {
    if n > 0 {
      LeakIsExact(trace, events, n - 1);
      LeakAt(trace, events, n);
    }
  }

  lemma LeakAt(trace: seq<Pool>, events: seq<Event>, i: nat)
    requires IsRun(trace, events) && 0 < i <= |events| && Initial(trace[0])
    requires Leak(trace[i - 1]) >= 0 && !events[i - 1].Drain?
    ensures Leak(trace[i])
         == Leak(trace[i - 1]) + if events[i - 1].Get? && trace[i - 1].idle != [] && !events[i - 1].valid then 1 else 0
  {
    InitiallyBounded(trace[0]);
    OneHolderRun(trace, events, i - 1);
    assert IsStep(trace, events, i);
    LeakStep(trace[i - 1], events[i - 1]);
  }

  /** The counter has used up the limit with nothing to show for it. */
  ghost predicate Starved(p: Pool) {
    p.idle == [] && p.out == {} && p.created >= p.size
  }

  /** A pool in which nothing is idle or checked out has starved exactly when gets have met as
      many invalid connections as the pool is large. */
  lemma InvalidGetsStarve(trace: seq<Pool>, events: seq<Event>, n: nat)
    requires IsRun(trace, events) && n <= |events| && Initial(trace[0]) && Drains(events, n) == 0
    requires trace[n].idle == [] && trace[n].out == {}
    ensures Starved(trace[n]) <==> InvalidGets(trace, events, n) >= trace[0].size
  {
    OneHolderRun(trace, events, n);
    LeakIsExact(trace, events, n);
  }

  lemma StarvedAt(trace: seq<Pool>, events: seq<Event>, i: nat)
    requires IsRun(trace, events) && 0 < i <= |events| && Starved(trace[i - 1]) && !events[i - 1].Drain?
    ensures trace[i] == trace[i - 1]
  {
    assert IsStep(trace, events, i);
  }

  /** A starved pool refuses every get, whatever the factory would do, until it is drained. */
  lemma {:induction false} StarvedForever(trace: seq<Pool>, events: seq<Event>, n: nat, valid: bool, works: bool)
    requires IsRun(trace, events) && n <= |events| && Starved(trace[0]) && Drains(events, n) == 0
    ensures trace[n] == trace[0] && AfterGet(trace[n], valid, works) == (trace[n], None)
  {
    if n > 0 {
      StarvedForever(trace, events, n - 1, valid, works);
      StarvedAt(trace, events, n);
    }
  }

  // ---------- connections that never pass the test ----------

  /** A connection with a `ping` method always fails the validity test: that branch returns
      nothing. */
  predicate TestFails(e: Event) {
    match e
    case Get(valid, _) => !valid
    case Return(_, _, valid, _) => !valid
    case HealthCheck(_, healthy) => healthy == {}
    case Drain => true
  }

  ghost predicate IsInvalidRun(trace: seq<Pool>, events: seq<Event>) {
    IsRun(trace, events) && forall i :: 0 <= i < |events| ==> TestFails(events[i])
  }

  /** A get fails although the factory works. */
  predicate Refuses(p: Pool) {
    AfterGet(p, false, true).1.None?
  }

  /** The counter overstates the checked-out connections by at most `limit`. */
  ghost predicate Overdrawn(p: Pool, limit: nat) {
    p.created <= |p.out| + limit
  }

  lemma OverdraftStep(p: Pool, e: Event, limit: nat)
    requires OneHolder(p) && Allowed(p, e) && TestFails(e) && Overdrawn(p, limit)
    ensures Overdrawn(After(p, e), limit)
  {
    match e
    case Get(valid, works) =>
      NumberedBelow(p.made);
      assert |p.out + {p.made}| == |p.out| + 1;
    case Return(conn, _, _, _) => assert |p.out - {conn}| == |p.out| - 1;
    case HealthCheck(_, _) =>
    case Drain =>
  }

  lemma OverdraftAt(trace: seq<Pool>, events: seq<Event>, i: nat, limit: nat)
    requires IsInvalidRun(trace, events) && 0 < i <= |events| && Initial(trace[0]) && Overdrawn(trace[i - 1], limit)
    ensures Overdrawn(trace[i], limit)
  {
    InitiallyBounded(trace[0]);
    OneHolderRun(trace, events, i - 1);
    assert IsStep(trace, events, i);
    OverdraftStep(trace[i - 1], events[i - 1], limit);
  }

  /** Only the connections made by the constructor can ever be idle, so the overdraft is never
      more than their number, drains or not. */
  lemma {:induction false} OverdraftRun(trace: seq<Pool>, events: seq<Event>, n: nat, limit: nat)
    requires IsInvalidRun(trace, events) && n <= |events| && Initial(trace[0]) && |trace[0].idle| <= limit
    ensures Overdrawn(trace[n], limit)
  {
    if n > 0 {
      OverdraftRun(trace, events, n - 1, limit);
      OverdraftAt(trace, events, n, limit);
    }
  }

  /** A pool of such connections never refuses while fewer are out than the pool is large less
      the connections it was made with. */
  lemma InvalidPoolServes(trace: seq<Pool>, events: seq<Event>, n: nat)
    requires IsInvalidRun(trace, events) && n <= |events| && Initial(trace[0])
    ensures Refuses(trace[n]) ==> trace[0].size - |trace[0].idle| <= |trace[n].out|
  {
    OverdraftRun(trace, events, n, |trace[0].idle|);
    InitiallyBounded(trace[0]);
    OneHolderRun(trace, events, n);
  }

  /** A run without a drain from p to a pool that refuses while k connections are out. */
  ghost predicate EndsRefusing(p: Pool, trace: seq<Pool>, events: seq<Event>, k: nat) {
    && IsInvalidRun(trace, events) && trace[0] == p && Drains(events, |events|) == 0
    && Refuses(trace[|events|]) && |trace[|events|].out| == k
  }

  ghost predicate MayRefuse(p: Pool, k: nat) {
    exists trace, events :: EndsRefusing(p, trace, events, k)
  }

  /** ... although the factory never fails. */
  ghost predicate MayRefuseAnyway(p: Pool, k: nat) {
    exists trace, events :: EndsRefusing(p, trace, events, k) && FactoryWorks(events)
  }

  ghost predicate FactoryWorks(events: seq<Event>) {
    forall i :: 0 <= i < |events| && events[i].Get? ==> events[i].factoryWorks
  }

  lemma RefusesInRange(p: Pool, k: nat)
    requires Initial(p) && MayRefuse(p, k)
    ensures p.size - |p.idle| <= k <= p.size
  {
    var trace, events :| EndsRefusing(p, trace, events, k);
    InvalidPoolServes(trace, events, |events|);
    PoolNeverOverflows(trace, events, |events|);
  }

  lemma RangeIsReached(p: Pool, k: nat)
    requires Initial(p) && p.size - |p.idle| <= k <= p.size
    ensures MayRefuseAnyway(p, k)
  {
    InitiallyBounded(p);
    var trace, events := RefusingRun(p, p.size - k, k);
  }

  /** How many checked-out connections such a pool may be refusing at: between the room that its
      first connections leave and its size, and every number in between is reached, by runs in
      which the factory never fails. */
  lemma RefusalLevels(p: Pool, k: nat)
    requires Initial(p)
    ensures MayRefuse(p, k) <==> p.size - |p.idle| <= k <= p.size
    ensures MayRefuseAnyway(p, k) <==> p.size - |p.idle| <= k <= p.size
  {
    if MayRefuse(p, k) {
      RefusesInRange(p, k);
    }
    if p.size - |p.idle| <= k <= p.size {
      RangeIsReached(p, k);
    }
  }

  lemma {:induction false} NothingKept(p: Pool, idle: seq<Idle>, now: real)
    ensures Kept(p, idle, now, {}) == []
  {
    if idle != [] {
      NothingKept(p, idle[..|idle| - 1], now);
    }
  }

  /** A first connection is replaced and the replacement returned: the counter does not see it. */
  lemma WearOne(p: Pool, q: Pool)
    requires OneHolder(p) && p.idle != []
    requires q == After(After(p, Get(false, true)), Return(p.made, false, false, 0.0))
    ensures OneHolder(q) && q.idle == p.idle[1..] && q.created == p.created && q.out == p.out && q.size == p.size
  {
    NumberedBelow(p.made);
    OneHolderStep(p, Get(false, true));
    OneHolderStep(After(p, Get(false, true)), Return(p.made, false, false, 0.0));
    assert (p.out + {p.made}) - {p.made} == p.out;
  }

  lemma ShutAll(p: Pool, q: Pool)
    requires OneHolder(p) && q == After(p, HealthCheck(0.0, {}))
    ensures OneHolder(q) && q.idle == [] && q.created == p.created - |p.idle| && q.out == p.out && q.size == p.size
  {
    OneHolderStep(p, HealthCheck(0.0, {}));
    NothingKept(p, p.idle, 0.0);
  }

  lemma TakeOne(p: Pool, q: Pool)
    requires OneHolder(p) && p.idle == [] && p.created < p.size && q == After(p, Get(false, true))
    ensures OneHolder(q) && q.idle == [] && q.created == p.created + 1 && |q.out| == |p.out| + 1 && q.size == p.size
  {
    NumberedBelow(p.made);
    OneHolderStep(p, Get(false, true));
  }

  /** Wear out `wear` of the idle connections, shut the others, and take `room` new ones. */
  lemma {:induction false} RefusingRun(p: Pool, wear: nat, room: nat) returns (trace: seq<Pool>, events: seq<Event>)
    requires OneHolder(p) && wear <= |p.idle| && p.created - (|p.idle| - wear) + room == p.size
    ensures EndsRefusing(p, trace, events, |p.out| + room) && FactoryWorks(events)
    decreases |p.idle|, room
  {
    if wear > 0 {
      var mid := After(p, Get(false, true));
      var q := After(mid, Return(p.made, false, false, 0.0));
      WearOne(p, q);
      trace, events := RefusingRun(q, wear - 1, room);
      trace, events := InvalidCons(mid, Return(p.made, false, false, 0.0), trace, events);
      trace, events := InvalidCons(p, Get(false, true), trace, events);
    } else if p.idle != [] {
      ShutAll(p, After(p, HealthCheck(0.0, {})));
      trace, events := RefusingRun(After(p, HealthCheck(0.0, {})), 0, room);
      trace, events := InvalidCons(p, HealthCheck(0.0, {}), trace, events);
    } else if room > 0 {
      TakeOne(p, After(p, Get(false, true)));
      trace, events := RefusingRun(After(p, Get(false, true)), 0, room - 1);
      trace, events := InvalidCons(p, Get(false, true), trace, events);
    } else {
      trace, events := [p], [];
    }
  }

  lemma InvalidCons(p: Pool, e: Event, tr: seq<Pool>, es: seq<Event>) returns (trace: seq<Pool>, events: seq<Event>)
    requires IsInvalidRun(tr, es) && Allowed(p, e) && TestFails(e) && !e.Drain? && tr[0] == After(p, e)
    requires FactoryWorks(es) && (e.Get? ==> e.factoryWorks)
    ensures FactoryWorks(events)
    ensures IsInvalidRun(trace, events) && trace[0] == p && |events| == |es| + 1 && trace[|events|] == tr[|es|]
    ensures Drains(events, |events|) == Drains(es, |es|)
  {
    trace, events := RunCons(p, e, tr, es);
    FailsCons(e, es);
  }

  lemma FailsCons(e: Event, es: seq<Event>)
    requires TestFails(e) && forall i :: 0 <= i < |es| ==> TestFails(es[i])
    requires FactoryWorks(es) && (e.Get? ==> e.factoryWorks)
    ensures forall i :: 0 <= i < |[e] + es| ==> TestFails(([e] + es)[i])
    ensures FactoryWorks([e] + es)
  {
  }

  /** Such a pool can starve, refusing with nothing out, exactly if it was made full: that is, if
      it has at most five places and the factory worked for each. A larger one never does. */
  lemma StarvesOnlyIfMadeFull(p: Pool, works: seq<bool>)
    requires Initial(p) && |works| == 5 && |p.idle| == Count(works[..FirstConnections(p.size)], true)
    ensures MayRefuse(p, 0) <==> p.size <= 5 && forall i :: 0 <= i < p.size ==> works[i]
  {
    RefusalLevels(p, 0);
    var first := works[..FirstConnections(p.size)];
    CountAll(first);
    assert forall i :: 0 <= i < |first| ==> first[i] == works[i];
  }

  function FirstConnections(size: nat): nat {
    if size < 5 then size else 5
  }

  lemma {:induction false} CountAll(works: seq<bool>)
    ensures Count(works, true) <= |works|
    ensures Count(works, true) == |works| <==> forall i :: 0 <= i < |works| ==> works[i]
  {
    if works != [] {
      CountAll(works[..|works| - 1]);
    }
  }

  // ---------- connections that pass the test ----------

  /** A get of a valid connection takes the one that has been idle longest and asks no factory. */
  lemma OldestFirst(p: Pool, works: bool)
    requires p.idle != []
    ensures var (q, r) := AfterGet(p, true, works);
      r == Some(p.idle[0].conn) && q == p.(idle := p.idle[1..], out := p.out + {p.idle[0].conn})
  {
  }

  /** A valid connection that is given back while there is room becomes the youngest idle one, and
      is the next to be handed out if it is the only one; neither counter nor factory notices. */
  lemma ReturnedIsReused(p: Pool, conn: nat, now: real, works: bool)
    requires OneHolder(p) && conn in p.out && |p.idle| < p.size
    ensures var q := AfterReturn(p, conn, false, true, now);
      && q == p.(idle := p.idle + [Idle(conn, now)], out := p.out - {conn})
      && (p.idle == [] ==> AfterGet(q, true, works) == (p, Some(conn)))
  {
    var q := AfterReturn(p, conn, false, true, now);
    if p.idle == [] {
      assert q.idle[1..] == [];
      assert (p.out - {conn}) + {conn} == p.out;
    }
  }

  /** What is not put back is closed: an unwanted connection without ever taking the counter below
      zero, an invalid one or one without room by an uncounted one less. */
  lemma ReturnedOrClosed(p: Pool, conn: nat, discard: bool, valid: bool, now: real)
    requires conn in p.out
    ensures var q := AfterReturn(p, conn, discard, valid, now);
      && (!discard && valid && |p.idle| < p.size <==> q.closed == p.closed && q.idle != p.idle)
      && (discard || !valid || |p.idle| >= p.size ==> q.idle == p.idle && q.closed == p.closed + {conn})
      && (discard && p.created >= 1 ==> q.created == p.created - 1)
      && (discard && p.created < 1 ==> q.created == 0)
      && (!discard && (!valid || |p.idle| >= p.size) ==> q.created == p.created - 1)
  {
  }

  /** A health check keeps exactly the idle connections that pass the test and
      have not been idle for longer than allowed. */
  lemma {:induction false} HealthyAreKept(p: Pool, idle: seq<Idle>, now: real, valid: set<nat>, i: Idle)
    ensures i in Kept(p, idle, now, valid) <==> i in idle && now - i.since <= p.maxIdle && i.conn in valid
  {
    if idle != [] {
      var front, last := idle[..|idle| - 1], idle[|idle| - 1];
      HealthyAreKept(p, front, now, valid, i);
      assert idle == front + [last];
    }
  }

  /** When all of them are, it changes nothing. */
  lemma {:induction false} HealthyPoolStays(p: Pool, idle: seq<Idle>, now: real, valid: set<nat>)
    requires forall i :: i in idle ==> now - i.since <= p.maxIdle && i.conn in valid
    ensures Kept(p, idle, now, valid) == idle && ShutBy(p, idle, now, valid) == {}
  {
    if idle != [] {
      var front, last := idle[..|idle| - 1], idle[|idle| - 1];
      assert idle == front + [last] && last in idle;
      HealthyPoolStays(p, front, now, valid);
    }
  }

  // ---------- the pool object ----------

  class ConnectionPool {
    const size: nat
    const maxIdle: real
    var idle: seq<Idle>
    var created: int
    ghost var out: set<nat>
    ghost var closed: set<nat>
    var made: nat  // connections the factory has made so far

    ghost function State(): Pool
      reads this
    {
      Pool(size, maxIdle, idle, created, out, closed, made)
    }

    constructor (size: nat, maxIdle: real, works: seq<bool>, now: real)
      requires |works| == 5
      ensures Initial(State()) && this.size == size && this.maxIdle == maxIdle
      ensures |idle| == Count(works[..FirstConnections(size)], true)
    {
      this.size, this.maxIdle := size, maxIdle;
      idle, created, out, closed, made := [], 0, {}, {}, 0;
      new;
      InitializePool(works, now);
    }

    method AddInitial(now: real)
      requires Initial(State()) && |idle| < size
      modifies this
      ensures Initial(State()) && |idle| == |old(idle)| + 1
    {
      InitialOneMore(State(), now);
      idle := idle + [Idle(made, now)];
      created, made := created + 1, made + 1;
    }

    /** Up to five initial connections; `works` are the factory's answers, a failure is skipped. */
    method InitializePool(works: seq<bool>, now: real)
      requires Initial(State()) && idle == [] && |works| == 5
      modifies this
      ensures Initial(State()) && |idle| == Count(works[..FirstConnections(size)], true)
    {
      assert works[..0] == [];
      for i := 0 to FirstConnections(size)
        invariant Initial(State()) && |idle| == Count(works[..i], true) <= i
      {
        assert works[..i + 1][..i] == works[..i];
        if works[i] {
          AddInitial(now);
        }
      }
    }

    method GetConnection(valid: bool, factoryWorks: bool) returns (conn: Option<nat>)
      modifies this
      ensures (State(), conn) == AfterGet(old(State()), valid, factoryWorks)
    {
      if idle != [] {
        var candidate := idle[0].conn;
        idle := idle[1..];
        if valid {
          out := out + {candidate};
          return Some(candidate);
        }
        closed := closed + {candidate};
        if !factoryWorks {
          return None;
        }
      } else {
        if created >= size || !factoryWorks {
          return None;
        }
      }
      conn := Some(made);
      out := out + {made};
      created, made := created + 1, made + 1;
    }

    method ReturnConnection(conn: nat, discard: bool, valid: bool, now: real)
      requires conn in out
      modifies this
      ensures State() == AfterReturn(old(State()), conn, discard, valid, now)
    {
      out := out - {conn};
      if discard {
        closed := closed + {conn};
        created := if created - 1 > 0 then created - 1 else 0;
      } else if |idle| < size && valid {
        idle := idle + [Idle(conn, now)];
      } else {
        closed := closed + {conn};
        created := created - 1;
      }
    }

    /** Empty the queue, keep the usable connections aside, put them back. */
    method PerformHealthCheck(now: real, valid: set<nat>)
      requires |idle| <= size
      modifies this
      ensures State() == AfterHealthCheck(old(State()), now, valid)
    {
      var keep: seq<Idle> := [];
      ghost var all := idle;
      ghost var n := 0;
      assert all[..0] == [];
      while idle != []
        invariant n <= |all| && idle == all[n..]
        invariant keep == Kept(old(State()), all[..n], now, valid)
        invariant created == old(created) - (n - |keep|)
        invariant closed == old(closed) + ShutBy(old(State()), all[..n], now, valid)
        invariant out == old(out) && made == old(made)
        decreases |idle|
      {
        var i := idle[0];
        assert all[..n + 1][..n] == all[..n];
        idle := idle[1..];
        n := n + 1;
        if now - i.since > maxIdle {
          closed := closed + {i.conn};
          created := created - 1;
        } else if i.conn in valid {
          keep := keep + [i];
        } else {
          closed := closed + {i.conn};
          created := created - 1;
        }
      }
      assert all[..|all|] == all;
      PutBack(keep);
    }

    /** The queue has room for what was taken from it. */
    method PutBack(keep: seq<Idle>)
      requires idle == [] && |keep| <= size
      modifies this`idle
      ensures idle == keep
    {
      for k := 0 to |keep|
        invariant idle == keep[..k]
      {
        assert |idle| < size;  // so the put never finds the queue full
        idle := idle + [keep[k]];
      }
      assert keep[..|keep|] == keep;
    }

    /** drain() and close_all(): close what is idle, forget what is not. */
    method DrainPool()
      modifies this
      ensures State() == After(old(State()), Drain)
    {
      while idle != []
        invariant out == old(out) && made == old(made) && created == old(created)
        invariant closed + Conns(idle) == old(closed) + Conns(old(idle))
        decreases |idle|
      {
        ConnsCons(idle);
        closed := closed + {idle[0].conn};
        idle := idle[1..];
      }
      created := 0;
    }
  }
}
