/**
 The session table of adapters/media/ffmpeg_transcoder.py. Processes are numbered as they are
 spawned; `running` is what poll() would answer and loses processes when they exit on their own
 or are terminated. Calls run one at a time.
 */
module Transcoder {
  import opened Wrappers

  datatype Session = Session(process: nat, startedAt: real, start: int, seconds: int, source: string, audio: Option<int>)

  datatype Request = Request(id: string, source: string, audio: Option<int>, start: int, seconds: int)

  datatype Error = Busy | SpawnFailed | ExitedEarly

  /** SessionReusePolicy.allows_reuse */
  predicate AllowsReuse(s: Session, r: Request, alive: bool) {
    alive && s.start == r.start && s.seconds == r.seconds && s.audio == r.audio && s.source == r.source
  }

  /** A session's eviction rank; idle and unhooked sessions rank lowest, then the oldest. */
  function Rank(id: string, s: Session, activity: Option<string -> real>): (real, real) {
    if activity.Some? && activity.value(id) > 0.0 then (activity.value(id), s.startedAt) else (0.0, s.startedAt)
  }

  predicate RankLeq(a: (real, real), b: (real, real)) {
    a.0 < b.0 || (a.0 == b.0 && a.1 <= b.1)
  }

  type Table = map<string, Session>

  /** The session encodes what is asked for, from where and in the pieces it is asked for. */
  predicate Serves(s: Session, r: Request) {
    s.source == r.source && s.audio == r.audio && s.start == r.start && s.seconds == r.seconds
  }

  function Reaped(active: Table, running: set<nat>): Table {
    map id | id in active && active[id].process in running :: active[id]
  }

  ghost predicate IsVictim(others: Table, activity: Option<string -> real>, v: string) {
    v in others && forall id :: id in others ==> RankLeq(Rank(v, others[v], activity), Rank(id, others[id], activity))
  }

  predicate Idle(id: string, activity: string -> real) {
    activity(id) <= 0.0
  }

  /** Whom the hook makes the victim: the oldest idle session, or if none is idle a least active
      one, the oldest of these. */
  lemma VictimByActivity(others: Table, activity: string -> real, v: string)
    ensures IsVictim(others, Some(activity), v) <==>
      && v in others
      && (if exists id :: id in others && Idle(id, activity)
          then Idle(v, activity)
            && forall id :: id in others && Idle(id, activity) ==> others[v].startedAt <= others[id].startedAt
          else forall id :: id in others ==>
            activity(v) < activity(id) || (activity(v) == activity(id) && others[v].startedAt <= others[id].startedAt))
  {
  }

  /** Without a hook the oldest session is the victim. */
  lemma VictimByAge(others: Table, v: string)
    ensures IsVictim(others, None, v) <==>
      v in others && forall id :: id in others ==> others[v].startedAt <= others[id].startedAt
  {
  }

  /** Every tabled session still has its process. */
  ghost predicate AllAlive(active: Table, running: set<nat>) {
    forall id :: id in active ==> active[id].process in running
  }

  function Without(others: Table, evicted: Option<string>): Table {
    if evicted.Some? then others - {evicted.value} else others
  }

  /** One session is evicted exactly when the table is full, and it is one of minimal rank. */
  ghost predicate MadeRoom(others: Table, limit: nat, activity: Option<string -> real>, evicted: Option<string>) {
    && (evicted.Some? <==> |others| == limit)
    && (evicted.Some? ==> IsVictim(others, activity, evicted.value))
  }

  /** What opening a session on the table `left` leaves. */
  ghost predicate Opened(left: Table, spawned: seq<string>, r: Request, now: real, spawnWorks: bool, diesEarly: bool,
                         result: Result<Session, Error>, active: Table, spawned': seq<string>) {
    if !spawnWorks then result == Failure(SpawnFailed) && active == left && spawned' == spawned
    else if diesEarly then result == Failure(ExitedEarly) && active == left && spawned' == spawned + [r.id]
    else
      var s := Session(|spawned|, now, r.start, r.seconds, r.source, r.audio);
      result == Success(s) && active == left[r.id := s] && spawned' == spawned + [r.id]
  }

  /** Nothing runs outside the table, no process serves two sessions, and the table is bounded. */
  ghost predicate Sound(active: Table, running: set<nat>, spawned: seq<string>, limit: nat) {
    && |active| <= limit && limit >= 1
    && (forall id :: id in active ==> active[id].process < |spawned| && spawned[active[id].process] == id)
    && (forall p :: p in running ==> p < |spawned| && spawned[p] in active && active[spawned[p]].process == p)
  }

  lemma DropSound(active: Table, running: set<nat>, spawned: seq<string>, limit: nat, id: string)
    requires Sound(active, running, spawned, limit) && id in active
    ensures Sound(active - {id}, running - {active[id].process}, spawned, limit)
    ensures |active - {id}| == |active| - 1
    ensures AllAlive(active, running) ==> AllAlive(active - {id}, running - {active[id].process})
  {
    var rest := active - {id};
    assert rest.Keys == active.Keys - {id} && |rest.Keys| == |rest| && |active.Keys| == |active|;
  }

  lemma ReapSound(active: Table, running: set<nat>, spawned: seq<string>, limit: nat)
    requires Sound(active, running, spawned, limit)
    ensures Sound(Reaped(active, running), running, spawned, limit)
  {
    var rest := Reaped(active, running);
    assert |rest.Keys| == |rest| && |active.Keys| == |active|;
    Subset(rest.Keys, active.Keys);
  }

  lemma AddSound(active: Table, running: set<nat>, spawned: seq<string>, limit: nat, id: string, s: Session)
    requires Sound(active, running, spawned, limit) && |active| < limit
    requires id !in active && s.process == |spawned|
    ensures Sound(active[id := s], running + {|spawned|}, spawned + [id], limit)
    ensures AllAlive(active, running) ==> AllAlive(active[id := s], running + {|spawned|})
  {
    OneMoreSession(active, id, s);
  }

  lemma PutThenDrop(active: Table, id: string, s: Session)
    requires id !in active
    ensures active[id := s] - {id} == active
  {
  }

  lemma DropAbsent(active: Table, id: string)
    requires id !in active
    ensures active - {id} == active
    ensures |active| > 0 ==> active != map[]
  {
  }

  lemma OneMoreSession(active: Table, id: string, s: Session)
    requires id !in active
    ensures |active[id := s]| == |active| + 1
  {
    var more := active[id := s];
    assert more.Keys == active.Keys + {id} && |more.Keys| == |more| && |active.Keys| == |active|;
  }

  /** A session that was just opened is what the next identical request reuses, as long as its
      process lives: the request is idempotent. */
  lemma OpenedIsReused(left: Table, spawned: seq<string>, r: Request, now: real, result: Result<Session, Error>,
                       active: Table, spawned': seq<string>, running: set<nat>, later: set<nat>)
    requires Opened(left, spawned, r, now, true, false, result, active, spawned')
    requires AllAlive(active, running) && later <= running
    ensures result.Success?
    ensures var live := Reaped(active, later);
      if result.value.process in later
      then r.id in live && live[r.id] == result.value && AllowsReuse(live[r.id], r, true)
      else r.id !in live
    ensures later == running ==> Reaped(active, later) == active
  {
    assert active[r.id] == result.value;
  }

  lemma Subset<T>(a: set<T>, b: set<T>)
    requires a <= b
    ensures |a| <= |b|
  {
    assert b == a + (b - a);
  }

  /** There are never more live encoders than sessions allowed. */
  lemma {:induction false} LiveAtMost(active: Table, running: set<nat>, spawned: seq<string>, limit: nat)
    requires Sound(active, running, spawned, limit)
    ensures |running| <= |active| <= limit
    decreases |active|
  {
    if running != {} {
      var p :| p in running;
      DropSound(active, running, spawned, limit, spawned[p]);
      LiveAtMost(active - {spawned[p]}, running - {p}, spawned, limit);
      assert |running - {p}| == |running| - 1;
    }
  }

  class Transcoder {
    const limit: nat
    var active: Table
    var running: set<nat>
    ghost var spawned: seq<string>  // for which session each process was spawned
    var nextProcess: nat

    ghost predicate Valid()
      reads this
    {
      Sound(active, running, spawned, limit) && nextProcess == |spawned|
    }

    constructor (maxActiveSessions: int)
      ensures Valid() && active == map[] && running == {}
      ensures limit as int == if maxActiveSessions < 1 then 1 else maxActiveSessions
    {
      limit := if maxActiveSessions < 1 then 1 else maxActiveSessions;
      active, running, spawned, nextProcess := map[], {}, [], 0;
    }

    /** The environment: a process ends by itself. */
    method ProcessExits(process: nat)
      requires Valid()
      modifies this`running
      ensures Valid() && running == old(running) - {process}
    {
      running := running - {process};
    }

    method Terminate(process: nat)
      modifies this`running
      ensures running == old(running) - {process}
    {
      if process in running {
        running := running - {process};
      }
    }

    method ReapFinished()
      requires Valid()
      modifies this`active
      ensures Valid() && AllAlive(active, running) && active == Reaped(old(active), running)
    {
      ReapSound(active, running, spawned, limit);
      ghost var before := active;
      var ids := active.Keys;
      while ids != {}
        invariant ids <= before.Keys
        invariant active == map id | id in before && (id in ids || before[id].process in running) :: before[id]
      {
        var id :| id in ids;
        ids := ids - {id};
        if id in active && active[id].process !in running {
          active := active - {id};
        }
      }
      assert active == Reaped(before, running);
    }

    /** min over the candidates, then terminate and drop it; None when there are none. */
    method EvictOldest(excluding: string, activity: Option<string -> real>) returns (victim: Option<string>)
      modifies this`active, this`running
      ensures victim.None? <==> old(active) - {excluding} == map[]
      ensures victim.None? ==> active == old(active) && running == old(running)
      ensures victim.Some? ==>
        && IsVictim(old(active) - {excluding}, activity, victim.value)
        && active == old(active) - {victim.value}
        && running == old(running) - {old(active)[victim.value].process}
    {
      var candidates := active - {excluding};
      var todo := candidates.Keys;
      if todo == {} {
        return None;
      }
      var best :| best in todo;
      todo := todo - {best};
      while todo != {}
        invariant best in candidates && best !in todo && todo <= candidates.Keys
        invariant forall id :: id in candidates && id !in todo ==>
          RankLeq(Rank(best, candidates[best], activity), Rank(id, candidates[id], activity))
      {
        var id :| id in todo;
        todo := todo - {id};
        if !RankLeq(Rank(best, candidates[best], activity), Rank(id, candidates[id], activity)) {
          best := id;
        }
      }
      Terminate(active[best].process);
      active := active - {best};
      victim := Some(best);
    }

    method StopHlsSession(id: string)
      requires Valid()
      modifies this`active, this`running
      ensures Valid()
      ensures active == old(active) - {id}
      ensures running == old(running) - (if id in old(active) then {old(active)[id].process} else {})
      ensures AllAlive(old(active), old(running)) ==> AllAlive(active, running)
    {
      if id in active {
        var process := active[id].process;
        DropSound(active, running, spawned, limit, id);
        active := active - {id};
        Terminate(process);
      }
    }

    /** One round of the eviction loop: in a full table there is always a victim. */
    method EvictOne(id: string, activity: Option<string -> real>) returns (evicted: Option<string>)
      requires Valid() && id !in active && |active| >= limit
      modifies this`active, this`running
      ensures Valid() && |active| < limit == |old(active)|
      ensures evicted.Some? && IsVictim(old(active), activity, evicted.value)
      ensures active == old(active) - {evicted.value}
      ensures running == old(running) - {old(active)[evicted.value].process}
      ensures AllAlive(old(active), old(running)) ==> AllAlive(active, running)
    {
      ghost var before, live := active, running;
      DropAbsent(before, id);
      evicted := EvictOldest(id, activity);
      // "server is busy" would be raised here if there were no victim
      assert evicted.Some?;
      DropSound(before, live, spawned, limit, evicted.value);
    }

    /** Make room for one more session: at most one round. */
    method MakeRoom(id: string, activity: Option<string -> real>) returns (evicted: Option<string>)
      requires Valid() && id !in active
      modifies this`active, this`running
      ensures Valid() && |active| < limit
      ensures MadeRoom(old(active), limit, activity, evicted) && active == Without(old(active), evicted)
      ensures running == if evicted.Some? then old(running) - {old(active)[evicted.value].process} else old(running)
      ensures AllAlive(old(active), old(running)) ==> AllAlive(active, running)
    {
      evicted := None;
      while |active| >= limit
        invariant Valid()
        invariant evicted.None? ==> active == old(active) && running == old(running)
        invariant evicted.Some? ==> |active| < limit && MadeRoom(old(active), limit, activity, evicted)
        invariant evicted.Some? ==> active == old(active) - {evicted.value}
        invariant evicted.Some? ==> running == old(running) - {old(active)[evicted.value].process}
        invariant AllAlive(old(active), old(running)) ==> AllAlive(active, running)
        decreases |active|
      {
        evicted := EvictOne(id, activity);
      }
    }

    /** Register a freshly spawned process. */
    method Spawn(r: Request, now: real) returns (s: Session)
      requires Valid() && r.id !in active && |active| < limit
      modifies this`active, this`running, this`spawned, this`nextProcess
      ensures Valid()
      ensures s == Session(|old(spawned)|, now, r.start, r.seconds, r.source, r.audio)
      ensures active == old(active)[r.id := s]
      ensures running == old(running) + {s.process} && spawned == old(spawned) + [r.id]
      ensures AllAlive(old(active), old(running)) ==> AllAlive(active, running)
    {
      s := Session(nextProcess, now, r.start, r.seconds, r.source, r.audio);
      AddSound(active, running, spawned, limit, r.id, s);
      active := active[r.id := s];
      running := running + {nextProcess};
      spawned := spawned + [r.id];
      nextProcess := nextProcess + 1;
    }

    /** The session's process has exited and its entry is popped. */
    method Forget(id: string)
      requires Valid() && id in active
      modifies this`active, this`running
      ensures Valid() && active == old(active) - {id}
      ensures AllAlive(old(active), old(running)) ==> AllAlive(active, running)
    {
      DropSound(active, running, spawned, limit, id);
      running := running - {active[id].process};
      active := active - {id};
    }

    /** Spawn and wait for the first playlist: `spawnWorks` and `diesEarly` are what the
        environment answers. */
    method SpawnAndWait(r: Request, now: real, spawnWorks: bool, diesEarly: bool) returns (result: Result<Session, Error>)
      requires Valid() && r.id !in active && |active| < limit && AllAlive(active, running)
      modifies this`active, this`running, this`spawned, this`nextProcess
      ensures Valid() && AllAlive(active, running)
      ensures result != Failure(Busy)
      ensures Opened(old(active), old(spawned), r, now, spawnWorks, diesEarly, result, active, spawned)
    {
      if !spawnWorks {
        return Failure(SpawnFailed);
      }
      var session := Spawn(r, now);
      result := Success(session);
      if diesEarly {
        Forget(r.id);
        PutThenDrop(old(active), r.id, session);
        result := Failure(ExitedEarly);
      }
    }

    /** The part of ensure_hls_session after the old process is gone. */
    method OpenSession(r: Request, activity: Option<string -> real>, now: real, spawnWorks: bool, diesEarly: bool)
      returns (result: Result<Session, Error>, evicted: Option<string>)
      requires Valid() && r.id !in active && AllAlive(active, running)
      modifies this`active, this`running, this`spawned, this`nextProcess
      ensures Valid() && AllAlive(active, running)
      ensures result != Failure(Busy)
      ensures MadeRoom(old(active), limit, activity, evicted)
      ensures Opened(Without(old(active), evicted), old(spawned), r, now, spawnWorks, diesEarly, result, active, spawned)
    {
      evicted := MakeRoom(r.id, activity);
      result := SpawnAndWait(r, now, spawnWorks, diesEarly);
    }

    /** Reuse the session's process when nothing about it differs, else replace it. */
    method EnsureHlsSession(r: Request, activity: Option<string -> real>, now: real, spawnWorks: bool, diesEarly: bool)
      returns (result: Result<Session, Error>, evicted: Option<string>)
      requires Valid()
      modifies this
      ensures Valid() && AllAlive(active, running)
      ensures result != Failure(Busy)
      ensures var live := Reaped(old(active), old(running));
        if r.id in live && AllowsReuse(live[r.id], r, true)
        then result == Success(live[r.id]) && evicted.None?
          && active == live && running == old(running) && spawned == old(spawned)
        else
          && MadeRoom(live - {r.id}, limit, activity, evicted)
          && Opened(Without(live - {r.id}, evicted), old(spawned), r, now, spawnWorks, diesEarly, result, active, spawned)
      ensures result.Success? ==> Serves(result.value, r) && r.id in active && active[r.id] == result.value
      ensures r.id in old(active) && old(active)[r.id].process in old(running) && Serves(old(active)[r.id], r)
              ==> result == Success(old(active)[r.id]) && spawned == old(spawned) && running == old(running)
      ensures result.Success? && spawned != old(spawned) ==>
        result.value.startedAt == now && result.value.process == |old(spawned)| && spawned == old(spawned) + [r.id]
      ensures r.id in old(active) && !Serves(old(active)[r.id], r) ==> old(active)[r.id].process !in running
    {
      ReapFinished();
      if r.id in active && AllowsReuse(active[r.id], r, active[r.id].process in running) {
        return Success(active[r.id]), None;
      }
      StopHlsSession(r.id);
      result, evicted := OpenSession(r, activity, now, spawnWorks, diesEarly);
    }
  }
}
