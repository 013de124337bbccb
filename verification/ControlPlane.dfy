/** The one-task-per-session discipline: session slots, the four scheduler shards, their
    workers, and a handshake handler that looks its client up, publishes a session and then
    schedules it, with sessions ending in between. */
module ControlPlane {
  import opened Frames
  import opened SessionTable

  const NUM_SHARDS: nat := 4

  /** A scheduler worker: waiting, holding a popped task, or about to put it back after its
      session was found. */
  datatype Worker = Waiting | Popped(sid: SessionId) | Requeueing(sid: SessionId)

  /** A shard: the session ids of the tasks in its heap, and its worker. */
  datatype Shard = Shard(tasks: multiset<SessionId>, worker: Worker)

  /** `found` is the slot a handshake handler has looked up but not yet keyed, `pending` the one
      it has keyed but not yet scheduled; handshake jobs share one pool worker, so there is at
      most one of each.  `issued` is every id ever made. */
  datatype Plane =
    Plane(slots: seq<Slot>, shards: seq<Shard>, found: Option<nat>, pending: Option<nat>, issued: set<SessionId>)

  datatype Action =
    | FindClient(addr: Addr)
    | Publish(hello: Hello)
    | Schedule
    | EndSession(i: nat)
    | ExpireSessions(now: int)
    | Pop(shard: nat, sid: SessionId)
    | Lookup(shard: nat)
    | Requeue(shard: nat)

  /** `session_by_id` finds an active slot. */
  ghost predicate Live(slots: seq<Slot>, sid: SessionId)
  {
    exists i :: 0 <= i < |slots| && slots[i].active && slots[i].keys.sid == sid
  }

  function HomeShard(sid: SessionId): nat { sid[0] as nat % NUM_SHARDS }

  /** Ids come from hashes of fresh keys and nonces: never seen before, never all zeros. */
  ghost predicate Enabled(p: Plane, a: Action)
  {
    match a
    case FindClient(addr) => p.pending.None?
    case Publish(h) => p.pending.None? && h.keys.sid !in p.issued && h.keys.sid != ZERO_ID
    case Schedule => p.pending.Some?
    case EndSession(i) => true
    case ExpireSessions(now) => true
    case Pop(k, sid) => k < |p.shards| && p.shards[k].worker.Waiting? && sid in p.shards[k].tasks
    case Lookup(k) => k < |p.shards| && p.shards[k].worker.Popped?
    case Requeue(k) => k < |p.shards| && p.shards[k].worker.Requeueing?
  }

  /** The id read from a slot's memory: zeros once the session has ended. */
  function IdAt(slots: seq<Slot>, i: nat): SessionId { if i < |slots| then slots[i].keys.sid else ZERO_ID }

  ghost function Step(p: Plane, a: Action): Plane
    requires Enabled(p, a) && |p.shards| == NUM_SHARDS
  {
    match a
    case FindClient(addr) => p.(found := Looked(p.slots, addr))
    case Publish(h) =>
      var i := ShakenSlot(p.slots, p.found, h);
      Plane(Installed(p.slots, p.found, h), p.shards, None, if i < |p.slots| then Some(i) else None, p.issued + {h.keys.sid})
    case Schedule =>
      var sid := IdAt(p.slots, p.pending.value);
      var k := HomeShard(sid);
      p.(shards := p.shards[k := p.shards[k].(tasks := p.shards[k].tasks + multiset{sid})], pending := None)
    case EndSession(i) => if i < |p.slots| then p.(slots := Free(p.slots, i)) else p
    case ExpireSessions(now) => p.(slots := Expire(p.slots, now))
    case Pop(k, sid) =>
      p.(shards := p.shards[k := Shard(p.shards[k].tasks - multiset{sid}, Popped(sid))])
    case Lookup(k) =>
      var sid := p.shards[k].worker.sid;
      p.(shards := p.shards[k := p.shards[k].(worker := if Live(p.slots, sid) then Requeueing(sid) else Waiting)])
    case Requeue(k) =>
      var sid := p.shards[k].worker.sid;
      p.(shards := p.shards[k := Shard(p.shards[k].tasks + multiset{sid}, Waiting)])
  }

  function InHand(w: Worker, sid: SessionId): nat { if !w.Waiting? && w.sid == sid then 1 else 0 }

  /** Tasks carrying an id in its home shard, in the heap or in the worker's hand. */
  function Tasks(p: Plane, sid: SessionId): nat
    requires |p.shards| == NUM_SHARDS
  {
    var s := p.shards[HomeShard(sid)];
    s.tasks[sid] + InHand(s.worker, sid)
  }

  /** The same, counting the task the handler still owes. */
  function Owed(p: Plane, sid: SessionId): nat
    requires |p.shards| == NUM_SHARDS
  {
    Tasks(p, sid) + if p.pending.Some? && IdAt(p.slots, p.pending.value) == sid then 1 else 0
  }

  ghost predicate Placed(s: Shard, k: nat, issued: set<SessionId>)
  {
    && (forall sid :: sid in s.tasks ==> HomeShard(sid) == k && (sid in issued || sid == ZERO_ID))
    && (!s.worker.Waiting? ==> HomeShard(s.worker.sid) == k && (s.worker.sid in issued || s.worker.sid == ZERO_ID))
  }

  /** Ids in slots are issued or zero, and no two slots share one that is not zero. */
  ghost predicate IdsOk(slots: seq<Slot>, issued: set<SessionId>)
  {
    && (forall i :: 0 <= i < |slots| ==> slots[i].keys.sid in issued || (!slots[i].active && slots[i].keys.sid == ZERO_ID))
    && (forall i, j :: 0 <= i < j < |slots| && slots[i].keys.sid == slots[j].keys.sid ==> slots[i].keys.sid == ZERO_ID)
  }

  /** Each id has at most one task placed or owed and a live one exactly one, all in the home
      shard.  Only the zero id, which no session has, may have any number: a handler whose
      session ended under it schedules that. */
  ghost predicate Invariant(p: Plane)
  {
    && |p.shards| == NUM_SHARDS && TableOk(p.slots)
    && (forall k :: 0 <= k < NUM_SHARDS ==> Placed(p.shards[k], k, p.issued))
    && ZERO_ID !in p.issued
    && IdsOk(p.slots, p.issued)
    && (forall sid :: sid != ZERO_ID ==> Owed(p, sid) <= 1)
    && (forall sid :: Live(p.slots, sid) ==> Owed(p, sid) == 1)
  }

  // ---------- Preservation ----------

  /** A handshake keys at most one slot, which stays inactive if its session ended under it;
      every other slot keeps its keys or loses them with its session. */
  lemma InstallSlots(t: seq<Slot>, found: Option<nat>, h: Hello)
    ensures var r, i := Installed(t, found, h), ShakenSlot(t, found, h);
            |r| == |t| && (i < |r| ==> r[i].keys == h.keys) &&
            (forall k :: 0 <= k < |r| && k != i ==> Survives(t[k], r[k])) &&
            (i < |r| && !r[i].active ==> !t[i].active)
  {
  }

  /** Unchanged keys, or an ended session with its keys wiped. */
  ghost predicate Survives(s: Slot, r: Slot)
  {
    (r.active == s.active && r.keys == s.keys) || (!r.active && r.keys == NO_KEYS)
  }

  lemma PublishOwed(p: Plane, h: Hello, sid: SessionId)
    requires Invariant(p) && p.pending.None? && h.keys.sid !in p.issued && h.keys.sid != ZERO_ID
    ensures var q := Step(p, Publish(h));
            (sid != ZERO_ID ==> Owed(q, sid) <= 1) && (Live(q.slots, sid) ==> Owed(q, sid) == 1) &&
            (sid != h.keys.sid ==> Owed(q, sid) == Owed(p, sid))
  {
    var q := Step(p, Publish(h));
    InstallSlots(p.slots, p.found, h);
    if sid == h.keys.sid {
      assert Placed(p.shards[HomeShard(sid)], HomeShard(sid), p.issued);
      assert Tasks(p, sid) == 0;
    } else {
      assert Owed(q, sid) == Owed(p, sid) && (sid != ZERO_ID ==> Owed(p, sid) <= 1);
      if Live(q.slots, sid) {
        var k :| 0 <= k < |q.slots| && q.slots[k].active && q.slots[k].keys.sid == sid;
        assert p.slots[k].active && p.slots[k].keys.sid == sid;
      }
    }
  }

  lemma InstallIds(t: seq<Slot>, found: Option<nat>, h: Hello, issued: set<SessionId>)
    requires IdsOk(t, issued) && h.keys.sid !in issued && h.keys.sid != ZERO_ID
    ensures IdsOk(Installed(t, found, h), issued + {h.keys.sid})
  {
    InstallSlots(t, found, h);
  }

  lemma PublishOk(p: Plane, h: Hello)
    requires Invariant(p) && p.pending.None? && h.keys.sid !in p.issued && h.keys.sid != ZERO_ID
    ensures Invariant(Step(p, Publish(h)))
  {
    var q := Step(p, Publish(h));
    ApplyOk(Server(p.slots, p.found), Install(h));
    InstallIds(p.slots, p.found, h, p.issued);
    forall sid
      ensures (sid != ZERO_ID ==> Owed(q, sid) <= 1) && (Live(q.slots, sid) ==> Owed(q, sid) == 1)
    {
      PublishOwed(p, h, sid);
    }
  }

  /** What is owed to an id after sessions end: as before while it lives, and never more, unless
      it is the zero id. */
  lemma EndOwed(p: Plane, slots: seq<Slot>, sid: SessionId)
    requires Invariant(p) && TableOk(slots) && |slots| == |p.slots|
    requires forall k :: 0 <= k < |slots| ==> Survives(p.slots[k], slots[k])
    ensures var q := p.(slots := slots);
            (sid != ZERO_ID ==> Owed(q, sid) <= Owed(p, sid)) &&
            (Live(slots, sid) ==> Live(p.slots, sid) && Owed(q, sid) == Owed(p, sid))
  {
    if Live(slots, sid) {
      var k :| 0 <= k < |slots| && slots[k].active && slots[k].keys.sid == sid;
      assert p.slots[k].active && p.slots[k].keys.sid == sid;
    }
  }

  /** Ending sessions only shrinks the set of live ids. */
  lemma EndOk(p: Plane, slots: seq<Slot>)
    requires Invariant(p) && TableOk(slots) && |slots| == |p.slots|
    requires forall k :: 0 <= k < |slots| ==> Survives(p.slots[k], slots[k])
    ensures Invariant(p.(slots := slots))
  {
    var q := p.(slots := slots);
    forall sid
      ensures (sid != ZERO_ID ==> Owed(q, sid) <= 1) && (Live(q.slots, sid) ==> Owed(q, sid) == 1)
    {
      EndOwed(p, slots, sid);
    }
  }

  /** A scheduler step moves a task without changing what is owed, except that a look-up that
      finds no session drops the task. */
  lemma ShardOk(p: Plane, q: Plane, lost: set<SessionId>)
    requires Invariant(p) && |q.shards| == NUM_SHARDS && q.slots == p.slots && q.issued == p.issued
    requires forall k :: 0 <= k < NUM_SHARDS ==> Placed(q.shards[k], k, q.issued)
    requires forall sid :: sid in lost ==> !Live(p.slots, sid) && Owed(q, sid) <= Owed(p, sid)
    requires forall sid :: sid !in lost ==> Owed(q, sid) == Owed(p, sid)
    ensures Invariant(q)
  {
    forall sid
      ensures (sid != ZERO_ID ==> Owed(q, sid) <= 1) && (Live(q.slots, sid) ==> Owed(q, sid) == 1)
    {
      assert sid != ZERO_ID ==> Owed(p, sid) <= 1;
    }
  }

  lemma ScheduleOk(p: Plane)
    requires Invariant(p) && p.pending.Some?
    ensures Invariant(Step(p, Schedule)) && forall x :: Owed(Step(p, Schedule), x) <= Owed(p, x)
  {
    var q := Step(p, Schedule);
    forall sid
      ensures Owed(q, sid) == Owed(p, sid)
    {
    }
    ShardOk(p, q, {});
  }

  lemma PopOk(p: Plane, k: nat, sid: SessionId)
    requires Invariant(p) && Enabled(p, Pop(k, sid))
    ensures Invariant(Step(p, Pop(k, sid))) && forall x :: Owed(Step(p, Pop(k, sid)), x) <= Owed(p, x)
  {
    var q := Step(p, Pop(k, sid));
    assert Placed(p.shards[k], k, p.issued);
    forall other
      ensures Owed(q, other) == Owed(p, other)
    {
    }
    ShardOk(p, q, {});
  }

  lemma LookupOk(p: Plane, k: nat)
    requires Invariant(p) && Enabled(p, Lookup(k))
    ensures Invariant(Step(p, Lookup(k))) && forall x :: Owed(Step(p, Lookup(k)), x) <= Owed(p, x)
  {
    var q, sid := Step(p, Lookup(k)), p.shards[k].worker.sid;
    assert Placed(p.shards[k], k, p.issued);
    forall x
      ensures Owed(q, x) <= Owed(p, x) && (x != sid || Live(p.slots, sid) ==> Owed(q, x) == Owed(p, x))
    {
    }
    ShardOk(p, q, if Live(p.slots, sid) then {} else {sid});
  }

  lemma RequeueOk(p: Plane, k: nat)
    requires Invariant(p) && Enabled(p, Requeue(k))
    ensures Invariant(Step(p, Requeue(k))) && forall x :: Owed(Step(p, Requeue(k)), x) <= Owed(p, x)
  {
    var q := Step(p, Requeue(k));
    assert Placed(p.shards[k], k, p.issued);
    forall sid
      ensures Owed(q, sid) == Owed(p, sid)
    {
    }
    ShardOk(p, q, {});
  }

  lemma FindClientOk(p: Plane, addr: Addr)
    requires Invariant(p) && p.pending.None?
    ensures Invariant(Step(p, FindClient(addr))) && forall x :: Owed(Step(p, FindClient(addr)), x) == Owed(p, x)
  {
    var q := Step(p, FindClient(addr));
    forall x
      ensures Owed(q, x) == Owed(p, x)
    {
    }
    ShardOk(p, q, {});
  }

  lemma StepOk(p: Plane, a: Action)
    requires Invariant(p) && Enabled(p, a)
    ensures Invariant(Step(p, a))
  {
    match a {
      case FindClient(addr) => FindClientOk(p, addr);
      case Publish(h) => PublishOk(p, h);
      case Schedule => ScheduleOk(p);
      case EndSession(i) =>
        ApplyOk(Server(p.slots, p.found), End(i));
        EndOk(p, Step(p, a).slots);
      case ExpireSessions(now) =>
        ApplyOk(Server(p.slots, p.found), ExpireAll(now));
        EndOk(p, Step(p, a).slots);
      case Pop(k, sid) => PopOk(p, k, sid);
      case Lookup(k) => LookupOk(p, k);
      case Requeue(k) => RequeueOk(p, k);
    }
  }

  // ---------- Theorems over all runs ----------

  /** A run: states and the enabled actions between them. */
  ghost predicate IsRun(states: seq<Plane>, actions: seq<Action>)
  {
    && |states| == |actions| + 1
    && Initial(states[0])
    && forall n :: 0 <= n < |actions| ==>
         |states[n].shards| == NUM_SHARDS && Enabled(states[n], actions[n]) && states[n + 1] == Step(states[n], actions[n])
  }

  ghost predicate Initial(p: Plane)
  {
    && |p.slots| <= MAX_CLIENTS && (forall i :: 0 <= i < |p.slots| ==> !p.slots[i].active && p.slots[i].keys == NO_KEYS)
    && p.shards == seq(NUM_SHARDS, _ => Shard(multiset{}, Waiting)) && p.found.None? && p.pending.None? && p.issued == {}
  }

  lemma {:induction false} RunOk(states: seq<Plane>, actions: seq<Action>, n: nat)
    requires IsRun(states, actions) && n <= |actions|
    ensures Invariant(states[n])
  {
    if n > 0 {
      var m := n - 1;
      RunOk(states, actions, m);
      assert Enabled(states[m], actions[m]) && states[m + 1] == Step(states[m], actions[m]);
      StepOk(states[m], actions[m]);
    }
  }

  /** In every reachable state an active session has at most one task, in its home shard and
      nowhere else, and exactly one whenever no handshake handler is midway. */
  lemma OneTaskPerSession(states: seq<Plane>, actions: seq<Action>, n: nat, i: nat)
    requires IsRun(states, actions) && n <= |actions| && i < |states[n].slots| && states[n].slots[i].active
    ensures |states[n].shards| == NUM_SHARDS
    ensures var p, sid := states[n], states[n].slots[i].keys.sid;
            Tasks(p, sid) <= 1 && (p.pending.None? ==> Tasks(p, sid) == 1) &&
            forall k :: 0 <= k < 4 && k != sid[0] as nat % 4 ==>
              p.shards[k].tasks[sid] == 0 && InHand(p.shards[k].worker, sid) == 0
  {
    RunOk(states, actions, n);
    var p, sid := states[n], states[n].slots[i].keys.sid;
    assert Live(p.slots, sid);
    assert Owed(p, sid) == 1;
    forall k | 0 <= k < NUM_SHARDS && k != HomeShard(sid)
      ensures p.shards[k].tasks[sid] == 0 && InHand(p.shards[k].worker, sid) == 0
    {
      assert Placed(p.shards[k], k, p.issued);
    }
  }

  /** An id that was issued and whose session ended or was rekeyed never comes back to life,
      and once its task is gone it has none ever again. */
  ghost predicate Over(p: Plane, sid: SessionId)
  {
    |p.shards| == NUM_SHARDS && sid in p.issued && !Live(p.slots, sid)
  }

  /** The look-up frees the task of an ended or rekeyed session instead of putting it back; a
      task with the zero id is always freed there. */
  lemma LookupFrees(p: Plane, k: nat)
    requires Invariant(p) && Enabled(p, Lookup(k))
    ensures var sid := p.shards[k].worker.sid;
            (!Live(p.slots, sid) ==> Tasks(Step(p, Lookup(k)), sid) == Tasks(p, sid) - 1) &&
            (!Live(p.slots, sid) && sid != ZERO_ID ==> Tasks(Step(p, Lookup(k)), sid) == 0) &&
            (sid == ZERO_ID ==> !Live(p.slots, sid))
  {
    var sid := p.shards[k].worker.sid;
    assert Placed(p.shards[k], k, p.issued);
    assert sid != ZERO_ID ==> Owed(p, sid) <= 1;
  }

  lemma StaysDead(p: Plane, a: Action, sid: SessionId)
    requires Invariant(p) && Enabled(p, a) && Over(p, sid)
    ensures Over(Step(p, a), sid)
  {
    var q := Step(p, a);
    if a.Publish? {
      InstallSlots(p.slots, p.found, a.hello);
    }
    assert forall k :: 0 <= k < |q.slots| && q.slots[k].active && q.slots[k].keys.sid == sid ==>
      p.slots[k].active && p.slots[k].keys.sid == sid;
  }

  lemma TaskMoves(p: Plane, a: Action, sid: SessionId)
    requires Invariant(p) && Enabled(p, a) && (a.Schedule? || a.Pop? || a.Lookup? || a.Requeue?)
    ensures Owed(Step(p, a), sid) <= Owed(p, sid)
  {
    match a {
      case Schedule => ScheduleOk(p);
      case Pop(k, x) => PopOk(p, k, x);
      case Lookup(k) => LookupOk(p, k);
      case Requeue(k) => RequeueOk(p, k);
    }
  }

  lemma StaysOver(p: Plane, a: Action, sid: SessionId)
    requires Invariant(p) && Enabled(p, a) && Over(p, sid)
    ensures Over(Step(p, a), sid) && Owed(Step(p, a), sid) <= Owed(p, sid)
  {
    StaysDead(p, a, sid);
    if a.FindClient? {
      FindClientOk(p, a.addr);
    } else if a.Publish? {
      PublishOwed(p, a.hello, sid);
    } else if a.EndSession? {
      ApplyOk(Server(p.slots, p.found), End(a.i));
      EndOwed(p, Step(p, a).slots, sid);
    } else if a.ExpireSessions? {
      ApplyOk(Server(p.slots, p.found), ExpireAll(a.now));
      EndOwed(p, Step(p, a).slots, sid);
    } else {
      TaskMoves(p, a, sid);
    }
  }

  lemma {:induction false} EndedForGood(states: seq<Plane>, actions: seq<Action>, m: nat, n: nat, sid: SessionId)
    requires IsRun(states, actions) && m <= n <= |actions| && Over(states[m], sid) && Owed(states[m], sid) == 0
    ensures Over(states[n], sid) && Owed(states[n], sid) == 0
  {
    if m < n {
      EndedForGood(states, actions, m, n - 1, sid);
      RunOk(states, actions, n - 1);
      StaysOver(states[n - 1], actions[n - 1], sid);
      assert states[n - 1 + 1] == Step(states[n - 1], actions[n - 1]);
    }
  }

  // ---------- What the actions achieve ----------

  /** A handshake that keys an active slot makes its new id live and leaves it owed a task, which
      scheduling puts into shard id[0] mod 4. */
  lemma Publishes(p: Plane, h: Hello)
    requires Invariant(p) && Enabled(p, Publish(h)) && ShakenSlot(p.slots, p.found, h) < |p.slots|
    requires p.found.Some? && p.found.value < |p.slots| ==> p.slots[p.found.value].active
    ensures var q, k := Step(p, Publish(h)), h.keys.sid[0] as nat % 4;
            Live(q.slots, h.keys.sid) && q.pending.Some? && q.found.None? && h.keys.sid in q.issued && q.shards == p.shards &&
            var r := Step(q, Schedule);
            r.pending.None? && r.slots == q.slots && r.shards[k].tasks == p.shards[k].tasks + multiset{h.keys.sid} &&
            r.shards[k].worker == p.shards[k].worker && forall j :: 0 <= j < 4 && j != k ==> r.shards[j] == p.shards[j]
  {
    InstallSlots(p.slots, p.found, h);
    var q := Step(p, Publish(h));
    var i := ShakenSlot(p.slots, p.found, h);
    assert q.slots[i].active && q.slots[i].keys.sid == h.keys.sid;
  }

  /** A known client's handshake, found and keyed with nothing in between, rekeys its slot in
      place: the new id is live, the old one dead. */
  lemma Rekeys(p: Plane, h: Hello, i: nat)
    requires Invariant(p) && Enabled(p, Publish(h)) && h.rotateOk && i < |p.slots| && p.slots[i].active && p.slots[i].addr == h.addr
    ensures var q := Step(Step(p, FindClient(h.addr)), Publish(h));
            q.pending == Some(i) && q.slots[i].active && q.slots[i].keys == h.keys && q.slots[i].addr == h.addr &&
            (forall k :: 0 <= k < |p.slots| && k != i ==> q.slots[k] == p.slots[k]) &&
            Live(q.slots, h.keys.sid) && !Live(q.slots, p.slots[i].keys.sid)
  {
    assert Looked(p.slots, h.addr) == Some(i);
    var q := Step(Step(p, FindClient(h.addr)), Publish(h));
    assert q.slots[i].keys.sid == h.keys.sid;
  }

  /** Ending a session, or expiring it after more than 60 seconds, makes its id dead. */
  lemma Ends(p: Plane, i: nat, now: int)
    requires Invariant(p) && i < |p.slots| && p.slots[i].active
    ensures !Live(Step(p, EndSession(i)).slots, p.slots[i].keys.sid)
    ensures Live(Step(p, ExpireSessions(now)).slots, p.slots[i].keys.sid) <==> now - p.slots[i].lastActivity <= 60
  {
    var sid := p.slots[i].keys.sid;
    var q := Step(p, ExpireSessions(now));
    assert forall k :: 0 <= k < |p.slots| && k != i ==> p.slots[k].keys.sid != sid;
    assert q.slots[i].active ==> q.slots[i].keys.sid == sid;
  }

  /** A worker's round on a live session's task takes it out of the heap, holds it, and puts it
      back as it was. */
  lemma TaskRound(p: Plane, k: nat, sid: SessionId)
    requires Invariant(p) && Enabled(p, Pop(k, sid)) && Live(p.slots, sid)
    ensures var q := Step(p, Pop(k, sid));
            q.shards[k].tasks == p.shards[k].tasks - multiset{sid} && q.shards[k].worker == Popped(sid) && Enabled(q, Lookup(k)) &&
            var r := Step(q, Lookup(k));
            Enabled(r, Requeue(k)) && Step(r, Requeue(k)) == p
  {
    var q := Step(p, Pop(k, sid));
    var r := Step(q, Lookup(k));
    assert q.shards[k].tasks + multiset{sid} == p.shards[k].tasks;
    assert Step(r, Requeue(k)).shards == p.shards;
  }
}
