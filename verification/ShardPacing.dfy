/** One scheduler shard over time: a heap with the tasks of many sessions and a worker that
    takes the earliest due task, sends, and puts the task back.  Every session's sends are
    paced, so the rate bound holds for each of them whatever the others do. */
module ShardPacing {
  import opened Frames
  import opened TaskHeap
  import opened Pacing

  const KEEPALIVE_NS: int := 10 * BILLION

  /** How a session is served: at constant bit rate, or by keepalives only. */
  datatype Pace = Pace(cbr: bool, mbps: int, frag: int)

  /** The sessions there are, by id; each is scheduled once and keeps its parameters. */
  type Paces = map<SessionId, Pace>

  /** A task the worker has taken, and when. */
  datatype Running = Running(task: Task, start: Time)

  /** The heap, the worker's hand, its last clock reading, and each session's sends so far. */
  datatype Shard = Shard(heap: multiset<Task>, hand: Option<Running>, clock: Time, logs: map<SessionId, seq<Send>>)

  datatype Action =
    | Add(sid: SessionId, now: Time)
    | Take(task: Task, now: Time)
    | Put(now: Time, next: Time)
    | Drop(now: Time)

  ghost predicate Settings(paces: Paces)
  {
    forall sid :: sid in paces ==> 1 <= paces[sid].mbps <= 15 && 64 <= paces[sid].frag <= 1200
  }

  function NextNs(p: Pace, deadline: int, now: int): int
    requires 1 <= p.mbps <= 15 && 64 <= p.frag <= 1200
  {
    if p.cbr then NextDeadline(deadline, now, Interval(p.mbps, p.frag)) else now + KEEPALIVE_NS
  }

  /** The worker's clock does not go back; a session is added once; a task is taken when it is due and
      no other is earlier; it is put back, if its session is still there, with the deadline
      the reschedule computes.  Tasks of ended sessions are dropped, and may be added freely. */
  ghost predicate Enabled(paces: Paces, s: Shard, a: Action)
    requires Settings(paces)
  {
    Normal(a.now) && (!a.Add? ==> Ns(s.clock) <= Ns(a.now)) &&
    match a
    case Add(sid, _) => sid in paces ==> sid !in s.logs
    case Take(task, now) => s.hand.None? && task in s.heap && Le(task.nextRun, now) && forall t :: t in s.heap ==> Le(task.nextRun, t.nextRun)
    case Put(now, next) =>
      s.hand.Some? && s.hand.value.task.sid in paces && Normal(next) &&
      Ns(next) == NextNs(paces[s.hand.value.task.sid], Ns(s.hand.value.task.nextRun), Ns(now))
    case Drop(_) => s.hand.Some?
  }

  function Log(s: Shard, sid: SessionId): seq<Send> { if sid in s.logs then s.logs[sid] else [] }

  function Sent(r: Running, now: Time): Send { Send(Ns(r.task.nextRun), Ns(r.start), Ns(now)) }

  function Step(s: Shard, a: Action): Shard
  {
    match a
    case Add(sid, now) => s.(heap := s.heap + multiset{Task(now, sid)}, logs := s.logs[sid := Log(s, sid)])
    case Take(task, now) => s.(heap := s.heap - multiset{task}, hand := Some(Running(task, now)), clock := now)
    case Put(now, next) =>
      if s.hand.None? then s
      else
        var r := s.hand.value;
        Shard(s.heap + multiset{Task(next, r.task.sid)}, None, now, s.logs[r.task.sid := Log(s, r.task.sid) + [Sent(r, now)]])
    case Drop(now) =>
      if s.hand.None? then s
      else
        var r := s.hand.value;
        Shard(s.heap, None, now, s.logs[r.task.sid := Log(s, r.task.sid) + [Sent(r, now)]])
  }

  /** The task's deadline is the one computed after the session's last send. */
  ghost predicate Follows(p: Pace, t: Task, log: seq<Send>)
    requires 1 <= p.mbps <= 15 && 64 <= p.frag <= 1200
  {
    log != [] ==> Ns(t.nextRun) == NextNs(p, log[|log| - 1].deadline, log[|log| - 1].after)
  }

  ghost predicate TaskOk(paces: Paces, s: Shard, t: Task)
    requires Settings(paces)
  {
    Normal(t.nextRun) && (t.sid in paces ==> t.sid in s.logs && Follows(paces[t.sid], t, s.logs[t.sid]))
  }

  /** A session's only task is t, in the heap. */
  ghost predicate Alone(s: Shard, t: Task)
  {
    s.heap[t] == 1 && (forall u :: u in s.heap && u.sid == t.sid ==> u == t) && (s.hand.Some? ==> s.hand.value.task.sid != t.sid)
  }

  ghost predicate LogOk(p: Pace, log: seq<Send>, clock: Time)
    requires 1 <= p.mbps <= 15 && 64 <= p.frag <= 1200
  {
    (log != [] ==> log[|log| - 1].after <= Ns(clock)) && (p.cbr ==> Paced(log, Interval(p.mbps, p.frag)))
  }

  ghost predicate ShardOk(paces: Paces, s: Shard)
    requires Settings(paces)
  {
    && Normal(s.clock)
    && (forall t :: t in s.heap ==> TaskOk(paces, s, t) && (t.sid in paces ==> Alone(s, t)))
    && (s.hand.Some? ==>
          var r := s.hand.value;
          TaskOk(paces, s, r.task) && Normal(r.start) && Ns(r.task.nextRun) <= Ns(r.start) <= Ns(s.clock) &&
          (r.task.sid in paces ==> (forall u :: u in s.heap ==> u.sid != r.task.sid) && Before(s.logs[r.task.sid], r.start)))
    && (forall sid :: sid in s.logs && sid in paces ==> LogOk(paces[sid], s.logs[sid], s.clock))
  }

  ghost predicate Before(log: seq<Send>, t: Time) { log != [] ==> log[|log| - 1].after <= Ns(t) }

  lemma AddOk(paces: Paces, s: Shard, a: Action)
    requires Settings(paces) && ShardOk(paces, s) && a.Add? && Enabled(paces, s, a)
    ensures ShardOk(paces, Step(s, a))
  {
    var n := Step(s, a);
    forall t | t in n.heap
      ensures TaskOk(paces, n, t) && (t.sid in paces ==> Alone(n, t))
    {
      assert t in s.heap || t == Task(a.now, a.sid);
    }
  }

  lemma TakeOk(paces: Paces, s: Shard, a: Action)
    requires Settings(paces) && ShardOk(paces, s) && a.Take? && Enabled(paces, s, a)
    ensures ShardOk(paces, Step(s, a))
  {
    OrderIsNanoseconds(a.task.nextRun, a.now);
    var n := Step(s, a);
    forall t | t in n.heap
      ensures TaskOk(paces, n, t) && (t.sid in paces ==> Alone(n, t))
    {
      assert t in s.heap;
    }
  }

  /** The log grows by one paced send. */
  lemma SentOk(p: Pace, log: seq<Send>, r: Running, now: Time)
    requires 1 <= p.mbps <= 15 && 64 <= p.frag <= 1200 && LogOk(p, log, r.start) && Follows(p, r.task, log)
    requires Ns(r.task.nextRun) <= Ns(r.start) <= Ns(now)
    ensures LogOk(p, log + [Sent(r, now)], now)
  {
    if p.cbr {
      var more, interval := log + [Sent(r, now)], Interval(p.mbps, p.frag);
      FloorNeverBinds(p.mbps, p.frag);
      forall j | 0 <= j < |more| - 1
        ensures more[j].after <= more[j + 1].start && more[j + 1].deadline == NextDeadline(more[j].deadline, more[j].after, interval)
      {
      }
    }
  }

  lemma DoneOk(paces: Paces, s: Shard, a: Action)
    requires Settings(paces) && ShardOk(paces, s) && (a.Put? || a.Drop?) && Enabled(paces, s, a)
    ensures ShardOk(paces, Step(s, a))
  {
    var n, r := Step(s, a), s.hand.value;
    var sid := r.task.sid;
    if sid in paces {
      SentOk(paces[sid], s.logs[sid], r, a.now);
    }
    forall t | t in n.heap
      ensures TaskOk(paces, n, t) && (t.sid in paces ==> Alone(n, t))
    {
      assert t in s.heap || (a.Put? && t == Task(a.next, sid));
    }
  }

  lemma StepOk(paces: Paces, s: Shard, a: Action)
    requires Settings(paces) && ShardOk(paces, s) && Enabled(paces, s, a)
    ensures ShardOk(paces, Step(s, a))
  {
    match a {
      case Add(_, _) => AddOk(paces, s, a);
      case Take(_, _) => TakeOk(paces, s, a);
      case _ => DoneOk(paces, s, a);
    }
  }

  ghost function Run(start: Time, actions: seq<Action>): Shard
  {
    if actions == [] then Shard(multiset{}, None, start, map[])
    else Step(Run(start, actions[..|actions| - 1]), actions[|actions| - 1])
  }

  ghost predicate Possible(paces: Paces, start: Time, actions: seq<Action>)
    requires Settings(paces)
  {
    actions == [] ||
    var n := |actions| - 1;
    Possible(paces, start, actions[..n]) && Enabled(paces, Run(start, actions[..n]), actions[n])
  }

  lemma {:induction false} RunOk(paces: Paces, start: Time, actions: seq<Action>)
    requires Settings(paces) && Normal(start) && Possible(paces, start, actions)
    ensures ShardOk(paces, Run(start, actions))
  {
    if actions != [] {
      var n := |actions| - 1;
      RunOk(paces, start, actions[..n]);
      StepOk(paces, Run(start, actions[..n]), actions[n]);
    }
  }

  /** Constant bit rate, over every run of a shard with any number of sessions: n sends in a row
      of one session that start within T nanoseconds satisfy (n - 3) * I < T + 2. */
  lemma ShardRate(paces: Paces, start: Time, actions: seq<Action>, sid: SessionId, a: nat, b: nat)
    requires Settings(paces) && Normal(start) && Possible(paces, start, actions) && sid in paces && paces[sid].cbr
    requires a <= b < |Log(Run(start, actions), sid)|
    ensures var log, interval := Log(Run(start, actions), sid), Interval(paces[sid].mbps, paces[sid].frag);
            interval >= 1.0 && Paced(log, interval) &&
            (b - a + 1 - 3) * interval.Floor < log[b].start - log[a].start + 2
  {
    RunOk(paces, start, actions);
    FloorNeverBinds(paces[sid].mbps, paces[sid].frag);
    RateBound(Log(Run(start, actions), sid), Interval(paces[sid].mbps, paces[sid].frag), a, b);
  }

  // ---------- A prompt worker ----------

  function FromNs(ns: int): Time { Time(ns / BILLION, ns % BILLION) }

  lemma FromNsIs(ns: int)
    ensures Normal(FromNs(ns)) && Ns(FromNs(ns)) == ns
  {
  }

  lemma {:induction false} RunOne(paces: Paces, start: Time, actions: seq<Action>, x: Action)
    requires Settings(paces) && Possible(paces, start, actions) && Enabled(paces, Run(start, actions), x)
    ensures Run(start, actions + [x]) == Step(Run(start, actions), x) && Possible(paces, start, actions + [x])
  {
    assert (actions + [x])[..|actions|] == actions;
  }

  lemma {:induction false} RunTwo(paces: Paces, start: Time, actions: seq<Action>, s: Shard, x: Action, y: Action)
    returns (more: seq<Action>)
    requires Settings(paces) && Possible(paces, start, actions) && s == Run(start, actions)
    requires Enabled(paces, s, x) && Enabled(paces, Step(s, x), y)
    ensures Possible(paces, start, more) && Run(start, more) == Step(Step(s, x), y)
  {
    RunOne(paces, start, actions, x);
    RunOne(paces, start, actions + [x], y);
    more := actions + [x] + [y];
  }

  /** The instant of send n. */
  ghost function Instant(first: int, step: int, n: nat): int
  {
    if n == 0 then first else Instant(first, step, n - 1) + step
  }

  lemma {:induction false} InstantIs(first: int, step: int, n: nat)
    ensures Instant(first, step, n) == first + n * step
  {
    if n > 0 {
      InstantIs(first, step, n - 1);
      assert (n - 1) * step + step == n * step;
    }
  }

  /** The shard holds one task, of the session, due at the instant of send n, and n sends were
      logged, each exactly one interval after the one before. */
  ghost predicate OnTime(s: Shard, sid: SessionId, due: Time, first: int, step: int, n: nat)
  {
    && s.heap == multiset{Task(due, sid)} && s.hand.None?
    && Normal(due) && Ns(due) == Instant(first, step, n) && Ns(s.clock) <= Ns(due)
    && sid in s.logs && |s.logs[sid]| == n && forall k :: 0 <= k < n ==> s.logs[sid][k].start == Instant(first, step, k)
  }

  /** One send exactly at its deadline: both steps are possible, and the task is due again at the
      next one. */
  lemma PromptStep(paces: Paces, s: Shard, sid: SessionId, due: Time, next: Time)
    requires Settings(paces) && sid in paces && Normal(due) && Normal(next) && Ns(next) == NextNs(paces[sid], Ns(due), Ns(due))
    requires s.heap == multiset{Task(due, sid)} && s.hand.None? && Ns(s.clock) <= Ns(due) && sid in s.logs
    ensures Enabled(paces, s, Take(Task(due, sid), due))
    ensures Enabled(paces, Step(s, Take(Task(due, sid), due)), Put(due, next))
    ensures Step(Step(s, Take(Task(due, sid), due)), Put(due, next)) ==
            Shard(multiset{Task(next, sid)}, None, due, s.logs[sid := s.logs[sid] + [Send(Ns(due), Ns(due), Ns(due))]])
  {
    assert Task(due, sid) in s.heap;
    assert s.heap - multiset{Task(due, sid)} == multiset{};
    assert multiset{} + multiset{Task(next, sid)} == multiset{Task(next, sid)};
  }

  lemma OnTimeNext(s: Shard, r: Shard, sid: SessionId, due: Time, next: Time, first: int, step: int, n: nat)
    requires OnTime(s, sid, due, first, step, n) && step >= 0 && Normal(next) && Ns(next) == Ns(due) + step
    requires r == Shard(multiset{Task(next, sid)}, None, due, s.logs[sid := s.logs[sid] + [Send(Ns(due), Ns(due), Ns(due))]])
    ensures OnTime(r, sid, next, first, step, n + 1)
  {
  }

  lemma {:induction false} PromptTurn(paces: Paces, start: Time, actions: seq<Action>, s: Shard, sid: SessionId, due: Time,
                                      first: int, step: int, n: nat) returns (more: seq<Action>, next: Time)
    requires Settings(paces) && sid in paces && step >= 0 && Possible(paces, start, actions) && s == Run(start, actions)
    requires OnTime(s, sid, due, first, step, n) && NextNs(paces[sid], Ns(due), Ns(due)) == Ns(due) + step
    ensures Possible(paces, start, more) && OnTime(Run(start, more), sid, next, first, step, n + 1)
  {
    next := FromNs(Ns(due) + step);
    FromNsIs(Ns(due) + step);
    PromptStep(paces, s, sid, due, next);
    more := RunTwo(paces, start, actions, s, Take(Task(due, sid), due), Put(due, next));
    OnTimeNext(s, Run(start, more), sid, due, next, first, step, n);
  }

  lemma {:induction false} PromptRun(paces: Paces, start: Time, sid: SessionId, n: nat) returns (actions: seq<Action>, due: Time)
    requires Settings(paces) && Normal(start) && sid in paces && paces[sid].cbr
    ensures Possible(paces, start, actions)
    ensures OnTime(Run(start, actions), sid, due, Ns(start), Interval(paces[sid].mbps, paces[sid].frag).Floor, n)
  {
    if n == 0 {
      due := start;
      var none: seq<Action> := [];
      RunOne(paces, start, none, Add(sid, start));
      actions := none + [Add(sid, start)];
    } else {
      var step := Interval(paces[sid].mbps, paces[sid].frag).Floor;
      var before, last := PromptRun(paces, start, sid, n - 1);
      actions, due := PromptTurn(paces, start, before, Run(start, before), sid, last, Ns(start), step, n - 1);
    }
  }

  /** Constant bit rate is reached: with a prompt worker a session added at some instant sends
      then, and after every truncated interval, for as long as one likes. */
  lemma SteadyRun(paces: Paces, start: Time, sid: SessionId, n: nat) returns (actions: seq<Action>)
    requires Settings(paces) && Normal(start) && sid in paces && paces[sid].cbr
    ensures Possible(paces, start, actions)
    ensures var log, step := Log(Run(start, actions), sid), Interval(paces[sid].mbps, paces[sid].frag).Floor;
            |log| == n && forall k :: 0 <= k < n ==> log[k].start == Ns(start) + k * step
  {
    var step := Interval(paces[sid].mbps, paces[sid].frag).Floor;
    var due;
    actions, due := PromptRun(paces, start, sid, n);
    forall k | 0 <= k < n
      ensures Log(Run(start, actions), sid)[k].start == Ns(start) + k * step
    {
      InstantIs(Ns(start), step, k);
    }
  }

  // ---------- The worker over the real heap ----------

  /** The deadline a task is put back with. */
  method NextRun(task: Task, after: Time, p: Pace) returns (next: Time)
    requires Normal(task.nextRun) && Normal(after) && 1 <= p.mbps <= 15 && 64 <= p.frag <= 1200
    ensures Normal(next) && Ns(next) == NextNs(p, Ns(task.nextRun), Ns(after))
    ensures !p.cbr ==> next == Time(after.sec + 10, after.nsec)
  {
    if p.cbr {
      ghost var q;
      next, q := Reschedule(task.nextRun, after, p.mbps, p.frag);
    } else {
      next := Time(after.sec + KEEPALIVE_NS / BILLION, after.nsec);
    }
  }

  /** The model's steps for one turn: take, and put back or drop. */
  ghost function Turned(s: Shard, task: Task, now: Time, next: Option<Time>, after: Time): Shard
  {
    Step(Step(s, Take(task, now)), if next.Some? then Put(after, next.value) else Drop(after))
  }

  /** What one turn may do: nothing while no task is due, else steps the model allows. */
  ghost predicate Turn(paces: Paces, s: Shard, taken: Option<Task>, now: Time, next: Option<Time>, after: Time)
    requires Settings(paces)
  {
    if taken.None? then forall t :: t in s.heap ==> !Le(t.nextRun, now)
    else Enabled(paces, s, Take(taken.value, now)) &&
         Enabled(paces, Step(s, Take(taken.value, now)), if next.Some? then Put(after, next.value) else Drop(after))
  }

  /** A turn keeps the shard in order. */
  lemma TurnOk(paces: Paces, s: Shard, task: Task, now: Time, next: Option<Time>, after: Time)
    requires Settings(paces) && ShardOk(paces, s) && Turn(paces, s, Some(task), now, next, after)
    ensures ShardOk(paces, Turned(s, task, now, next, after))
  {
    StepOk(paces, s, Take(task, now));
    StepOk(paces, Step(s, Take(task, now)), if next.Some? then Put(after, next.value) else Drop(after));
  }

  /** It leaves the worker's hand empty and adds exactly one send to the log of the task's
      session. */
  lemma TurnLogs(s: Shard, task: Task, now: Time, next: Option<Time>, after: Time)
    ensures var r := Turned(s, task, now, next, after);
            r.hand.None? && r.clock == after && task.sid in r.logs &&
            r.logs[task.sid] == (if task.sid in s.logs then s.logs[task.sid] else []) + [Send(Ns(task.nextRun), Ns(now), Ns(after))] &&
            forall sid :: sid in s.logs && sid != task.sid ==> sid in r.logs && r.logs[sid] == s.logs[sid]
  {
  }

  lemma TakeTurn(paces: Paces, s: Shard, task: Task, rest: multiset<Task>, now: Time, next: Option<Time>, after: Time)
    requires Settings(paces) && s.hand.None? && Normal(now) && Normal(after) && Ns(s.clock) <= Ns(now) <= Ns(after)
    requires s.heap == rest + multiset{task} && Le(task.nextRun, now) && forall t :: t in s.heap ==> Le(task.nextRun, t.nextRun)
    requires next.Some? ==> task.sid in paces && Normal(next.value) &&
                            Ns(next.value) == NextNs(paces[task.sid], Ns(task.nextRun), Ns(after))
    ensures Turn(paces, s, Some(task), now, next, after)
    ensures Turned(s, task, now, next, after).heap == if next.Some? then rest + multiset{Task(next.value, task.sid)} else rest
  {
    assert task in s.heap;
    assert s.heap - multiset{task} == rest;
  }

  /** One turn of `scheduler_worker_fn` on the array heap: take the earliest task if it is due,
      and after the send put it back with its new deadline if its session is among the live
      ones, else free it.  The heap then holds what the shard model says. */
  method WorkerTurn(h: Heap, now: Time, after: Time, live: Paces, ghost paces: Paces, ghost s: Shard)
    returns (taken: Option<Task>, next: Option<Time>)
    requires h.Valid() && Settings(paces) && s.heap == h.Contents() && s.hand.None?
    requires Normal(now) && Normal(after) && Ns(s.clock) <= Ns(now) <= Ns(after) && forall t :: t in s.heap ==> Normal(t.nextRun)
    requires forall sid :: sid in live ==> sid in paces && live[sid] == paces[sid]
    modifies h, h.nodes
    ensures h.Valid() && (h.nodes == old(h.nodes) || fresh(h.nodes))
    ensures Turn(paces, s, taken, now, next, after) && (taken.Some? ==> (next.Some? <==> taken.value.sid in live))
    ensures h.Contents() == if taken.Some? then Turned(s, taken.value, now, next, after).heap else s.heap
  {
    next := None;
    taken := h.TakeDue(now);
    if taken.None? { return; }
    var task := taken.value;
    ghost var rest := h.Contents();
    assert task in s.heap;
    if task.sid in live {
      var time := NextRun(task, after, live[task.sid]);
      h.Push(Task(time, task.sid));
      next := Some(time);
    }
    TakeTurn(paces, s, task, rest, now, next, after);
  }

  /** `scheduler_add_session` on the array heap: the new task is due at once. */
  method AddSession(h: Heap, sid: SessionId, now: Time, ghost paces: Paces, ghost s: Shard)
    requires h.Valid() && Settings(paces) && ShardOk(paces, s) && s.heap == h.Contents() && Enabled(paces, s, Add(sid, now))
    modifies h, h.nodes
    ensures h.Valid() && (h.nodes == old(h.nodes) || fresh(h.nodes)) && h.Contents() == old(h.Contents()) + multiset{Task(now, sid)}
    ensures h.Contents() == Step(s, Add(sid, now)).heap && ShardOk(paces, Step(s, Add(sid, now)))
  {
    StepOk(paces, s, Add(sid, now));
    h.Push(Task(now, sid));
  }
}
