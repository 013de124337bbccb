/** What goes wrong in the worker pool, and exactly when: the sweep's unlocked wipe against the
    reassembly steps, and the handler without sharding. */
module PoolRaces {
  import opened Words
  import opened Frames
  import opened Fragments
  import opened ReplayView
  import opened Reassembly
  import opened DataPath
  import opened StoreSteps
  import opened WorkerPool

  lemma RunAppend(start: Pool, actions: seq<Action>, x: Action)
    requires |start.lanes| > 0
    ensures Run(start, actions + [x]) == Step(Run(start, actions), x)
  {
    assert (actions + [x])[..|actions|] == actions;
  }

  // ---------- A wipe against the steps of a frame ----------

  /** The session's handling, if any is in progress, is in its home worker's hand. */
  ghost predicate InWork(a: Pool, sid: SessionId)
  {
    |a.lanes| > 0 && sid in a.flows &&
    (a.flows[sid].store.busy.Resting? || (Home(a, sid).phase.Storing? && WorkerPool.Holds(Home(a, sid).phase, sid)))
  }

  lemma OneStepOn(a: Pool, sid: SessionId)
    requires InWork(a, sid) && !a.flows[sid].store.busy.Resting?
    ensures var b := Step(a, Work(ShardOf(sid[0], |a.lanes|)));
            |b.lanes| == |a.lanes| && InWork(b, sid) && b.flows[sid].store == Next(a.flows[sid].store) &&
            Rank(b.flows[sid].store.busy) < Rank(a.flows[sid].store.busy)
  {
  }

  /** The home worker alone carries the handling in progress to its end. */
  lemma {:induction false} WorkOn(start: Pool, actions: seq<Action>, sid: SessionId) returns (more: seq<Action>)
    requires |start.lanes| > 0 && InWork(Run(start, actions), sid)
    ensures forall k :: 0 <= k < |more| ==> more[k] == Work(ShardOf(sid[0], |start.lanes|))
    ensures sid in Run(start, actions + more).flows
    ensures Run(start, actions + more).flows[sid].store == Finished(Run(start, actions).flows[sid].store)
    decreases Rank(Run(start, actions).flows[sid].store.busy)
  {
    var a := Run(start, actions);
    if a.flows[sid].store.busy.Resting? {
      more := [];
      assert actions + more == actions;
    } else {
      var x := Work(ShardOf(sid[0], |start.lanes|));
      RunAppend(start, actions, x);
      OneStepOn(a, sid);
      var rest := WorkOn(start, actions + [x], sid);
      more := [x] + rest;
      assert actions + more == actions + [x] + rest;
    }
  }

  lemma WipeLands(a: Pool, sid: SessionId, j: nat)
    requires InWork(a, sid) && a.armed == Some(Aim(sid, j))
    ensures InWork(Step(a, WipeArmed), sid)
    ensures Step(a, WipeArmed).flows[sid].store == WipeStore(a.flows[sid].store, j)
  {
  }

  /** In every reachable state with a wipe about to land: once it has landed and the session's
      worker has finished the frame in hand, all writes are packets that were sent if and only
      if the wipe did not fall between the setting of a final frame's expected length and its
      write (or the packet was all zeros and its length already read). */
  lemma PoolWipeIff(sent: seq<Packet>, wire: seq<Item>, start: Pool, actions: seq<Action>, sid: SessionId, j: nat)
    returns (more: seq<Action>)
    requires Stream(sent, wire) && Initial(start) && start.sharded && sid in start.flows
    requires AuthenticJobs(sent, wire, Home(Run(start, actions), sid).submitted, sid)
    requires AllHarmless(sent, wire, start, actions, sid) && Run(start, actions).armed == Some(Aim(sid, j))
    ensures forall k :: 0 <= k < |more| ==> more[k] == Work(ShardOf(sid[0], |start.lanes|))
    ensures var a, b := Run(start, actions), Run(start, actions + [WipeArmed] + more);
            sid in a.flows && sid in b.flows && b.flows[sid].store.busy.Resting? &&
            var st := a.flows[sid].store;
            (Harmful(st, j) ==> st.busy.s < |wire| && wire[st.busy.s].DataItem?) &&
            (AllSound(sent, wire, b.flows[sid].store.writes) <==>
               !Harmful(st, j) || (st.busy.Sending? && AllZero(sent[wire[st.busy.s].p].bytes)))
  {
    var a := Run(start, actions);
    RunOk(start, actions);
    HarmlessSound(sent, wire, start, actions, sid);
    var f := a.flows[sid];
    assert FlowOk(Home(a, sid), f, sid);
    var log := Process(f.start, f.inputs).accepted;
    RunAppend(start, actions, WipeArmed);
    WipeLands(a, sid, j);
    more := WorkOn(start, actions + [WipeArmed], sid);
    FinishedSteps(WipeStore(f.store, j));
    WipeSafeIff(sent, wire, Done(wire, Elements(log)), OwnersIn(sent, wire, log), f.store, j);
  }

  // ---------- The race, from the start ----------

  /** The home lane is between jobs, or works on the given phase with nothing waiting. */
  ghost predicate At(a: Pool, i: nat, ph: Phase)
  {
    i < |a.lanes| && a.lanes[i].phase == ph && a.lanes[i].queue == [] && !a.closing
  }

  lemma SubmitTake(a: Pool, job: Job)
    requires job.Inbound? && job.s < TWO64 && |a.lanes| > 0 && At(a, ShardOf(job.sid[0], |a.lanes|), Idle)
    ensures var i := ShardOf(job.sid[0], |a.lanes|);
            var b := Step(Step(a, Submit(job, job.sid[0])), Work(i));
            |b.lanes| == |a.lanes| && At(b, i, Taken(job)) && b.flows == a.flows && b.armed == a.armed
  {
    var i := ShardOf(job.sid[0], |a.lanes|);
    var c := Step(a, Submit(job, job.sid[0]));
    assert c.lanes[i].queue == [job] && c.lanes[i].phase == Idle;
  }

  lemma StepWork(a: Pool, i: nat, job: Job, ph: Phase)
    requires job.Inbound? && job.sid in a.flows && InHand(ph) == [job] && At(a, i, ph)
    ensures var b := Step(a, Work(i));
            |b.lanes| == |a.lanes| && b.flows == a.flows[job.sid := FlowAfter(ph, a.flows[job.sid])] && b.armed == a.armed &&
            At(b, i, LaneAfter(a.lanes[i], a.flows[job.sid]).phase)
  {
  }

  /** A datagram that passes the check goes, undisturbed, as far as the mark. */
  lemma ToMarked(start: Pool, actions: seq<Action>, job: Job) returns (more: seq<Action>)
    requires job.Inbound? && job.s < TWO64 && job.plain.Some? && |start.lanes| > 0
    requires var a := Run(start, actions);
             At(a, ShardOf(job.sid[0], |a.lanes|), Idle) && job.sid in a.flows && !Rejects(a.flows[job.sid].view, job.s)
    ensures var a, b, i := Run(start, actions), Run(start, more), ShardOf(job.sid[0], |start.lanes|);
            At(b, i, Marked(job)) && job.sid in b.flows && b.armed == a.armed &&
            b.flows[job.sid] == a.flows[job.sid].(view := Advance(a.flows[job.sid].view, job.s), accepted := a.flows[job.sid].accepted + [job.s])
  {
    var i := ShardOf(job.sid[0], |start.lanes|);
    var x, y := Submit(job, job.sid[0]), Work(i);
    SubmitTake(Run(start, actions), job);
    RunAppend(start, actions, x);
    RunAppend(start, actions + [x], y);
    var c := actions + [x] + [y];
    StepWork(Run(start, c), i, job, Taken(job));
    RunAppend(start, c, y);
    StepWork(Run(start, c + [y]), i, job, Passed(job));
    RunAppend(start, c + [y], y);
    StepWork(Run(start, c + [y] + [y]), i, job, WorkerPool.Opened(job));
    RunAppend(start, c + [y] + [y], y);
    more := c + [y] + [y] + [y];
  }

  /** From the mark to the picked slot. */
  lemma ToPicked(a: Pool, i: nat, job: Job)
    requires job.Inbound? && job.plain.Some? && !IsControl(job.plain.value) && At(a, i, Marked(job)) && job.sid in a.flows
    requires SlotFor(a.flows[job.sid].store.table, job.plain.value.header.packetId) < |a.flows[job.sid].store.table|
    ensures var b := Step(a, Work(i));
            At(b, i, Storing(job)) && job.sid in b.flows && b.armed == a.armed && b.flows[job.sid].view == a.flows[job.sid].view &&
            b.flows[job.sid].store == Begin(a.flows[job.sid].store, job.s, job.plain.value, job.now) &&
            b.flows[job.sid].store.busy.Picked?
  {
    StepWork(a, i, job, Marked(job));
  }

  /** A step of the store that does not end the frame. */
  lemma StoreStep(a: Pool, i: nat, job: Job)
    requires job.Inbound? && job.sid in a.flows && At(a, i, Storing(job)) && !Next(a.flows[job.sid].store).busy.Resting?
    ensures var b := Step(a, Work(i));
            |b.lanes| == |a.lanes| && At(b, i, Storing(job)) && job.sid in b.flows && b.armed == a.armed &&
            b.flows[job.sid] == a.flows[job.sid].(store := Next(a.flows[job.sid].store))
  {
    StepWork(a, i, job, Storing(job));
  }

  /** From the picked slot through stamp, length, copy and count. */
  lemma ToFilled(start: Pool, actions: seq<Action>, job: Job) returns (more: seq<Action>)
    requires job.Inbound? && |start.lanes| > 0
    requires var a := Run(start, actions);
             At(a, ShardOf(job.sid[0], |a.lanes|), Storing(job)) && job.sid in a.flows &&
             var st := a.flows[job.sid].store;
             st.busy.Picked? && st.busy.j < |st.table| && Fits(st.busy.f)
    ensures var a, b, i := Run(start, actions), Run(start, more), ShardOf(job.sid[0], |start.lanes|);
            At(b, i, Storing(job)) && job.sid in b.flows && b.armed == a.armed && b.flows[job.sid].view == a.flows[job.sid].view &&
            var st := a.flows[job.sid].store;
            b.flows[job.sid].store ==
            Store(st.table[st.busy.j := Filled(st.table[st.busy.j].(lastActivity := st.busy.now), st.busy.f)],
                  FilledIn(st.busy.s, st.busy.f, st.busy.j), st.writes)
  {
    var i, y := ShardOf(job.sid[0], |start.lanes|), Work(ShardOf(job.sid[0], |start.lanes|));
    PickedToFilled(Run(start, actions).flows[job.sid].store);
    more := actions;
    for k := 0 to 4
      invariant At(Run(start, more), i, Storing(job)) && job.sid in Run(start, more).flows
      invariant Run(start, more).armed == Run(start, actions).armed
      invariant Run(start, more).flows[job.sid].view == Run(start, actions).flows[job.sid].view
      invariant var st := Run(start, actions).flows[job.sid].store;
                Run(start, more).flows[job.sid].store ==
                if k == 0 then st else if k == 1 then Next(st) else if k == 2 then Next(Next(st))
                else if k == 3 then Next(Next(Next(st))) else Next(Next(Next(Next(st))))
    {
      StoreStep(Run(start, more), i, job);
      RunAppend(start, more, y);
      more := more + [y];
    }
  }

  /** A frame that is not final ends at the completion test. */
  lemma TestFails(a: Pool, i: nat, job: Job)
    requires job.Inbound? && At(a, i, Storing(job)) && job.sid in a.flows
    requires a.flows[job.sid].store.busy.FilledIn? && !IsFinal(a.flows[job.sid].store.busy.f)
    ensures var b, st := Step(a, Work(i)), a.flows[job.sid].store;
            At(b, i, Idle) && job.sid in b.flows &&
            b.flows[job.sid].store == st.(busy := Resting) && b.flows[job.sid].view == a.flows[job.sid].view
  {
    assert Next(a.flows[job.sid].store) == a.flows[job.sid].store.(busy := Resting);
  }

  /** A table as at server start-up. */
  ghost predicate Empty(t: seq<Entry>) { |t| > 0 && forall j :: 0 <= j < |t| ==> !t[j].active }

  /** The first frame of a fresh session claims slot 0, whose time is still zero. */
  lemma FirstPicked(start: Pool, sid: SessionId, f: Frame, now: int) returns (more: seq<Action>)
    requires Initial(start) && sid in start.flows && Empty(start.flows[sid].start.table) && !IsControl(f)
    ensures var b, i := Run(start, more), ShardOf(sid[0], |start.lanes|);
            At(b, i, Storing(Inbound(sid, 1, Some(f), now))) && sid in b.flows && b.flows[sid].view.recvMax == 1 &&
            var st := b.flows[sid].store;
            st.busy == Picked(1, f, 0, now) && st.writes == [] && |st.table| > 0 &&
            st.table[0] == EMPTY.(active := true, id := f.header.packetId)
  {
    var job, i := Inbound(sid, 1, Some(f), now), ShardOf(sid[0], |start.lanes|);
    assert NewFlow(start.flows[sid]);
    var t := start.flows[sid].start.table;
    assert FirstHolding(t, f.header.packetId) == |t| && FirstFree(t) == 0;
    var c := ToMarked(start, [], job);
    ToPicked(Run(start, c), i, job);
    RunAppend(start, c, Work(i));
    more := c + [Work(i)];
  }

  /** If it is not final it waits there. */
  lemma FirstWaits(start: Pool, sid: SessionId, f: Frame, now: int) returns (more: seq<Action>)
    requires Initial(start) && sid in start.flows && Empty(start.flows[sid].start.table)
    requires !IsControl(f) && !IsFinal(f) && Fits(f)
    ensures var b, i := Run(start, more), ShardOf(sid[0], |start.lanes|);
            At(b, i, Idle) && sid in b.flows && b.flows[sid].view.recvMax == 1 &&
            b.flows[sid].store.busy.Resting? && b.flows[sid].store.writes == [] && |b.flows[sid].store.table| > 0 &&
            var e := b.flows[sid].store.table[0];
            e.active && e.id == f.header.packetId && e.lastActivity == now
  {
    var job, i := Inbound(sid, 1, Some(f), now), ShardOf(sid[0], |start.lanes|);
    var c := FirstPicked(start, sid, f, now);
    var d := ToFilled(start, c, job);
    TestFails(Run(start, d), i, job);
    RunAppend(start, d, Work(i));
    more := d + [Work(i)];
  }

  /** With the sweep aimed at the slot a final frame has picked, the wipe lands after the fill
      and the worker writes an empty packet. */
  lemma WipeAfterFill(start: Pool, actions: seq<Action>, job: Job) returns (more: seq<Action>)
    requires job.Inbound? && |start.lanes| > 0
    requires var a := Run(start, actions);
             At(a, ShardOf(job.sid[0], |a.lanes|), Storing(job)) && job.sid in a.flows &&
             var st := a.flows[job.sid].store;
             st.busy.Picked? && st.busy.s == job.s && st.busy.j < |st.table| && Fits(st.busy.f) && IsFinal(st.busy.f) &&
             a.armed == Some(Aim(job.sid, st.busy.j))
    ensures job.sid in Run(start, more).flows
    ensures Run(start, more).flows[job.sid].store.writes == Run(start, actions).flows[job.sid].store.writes + [Write(job.s, [])]
  {
    var sid, j := job.sid, Run(start, actions).flows[job.sid].store.busy.j;
    var d := ToFilled(start, actions, job);
    var st := Run(start, d).flows[sid].store;
    assert Harmful(st, j);
    HarmDone(st, j);
    WipeLands(Run(start, d), sid, j);
    RunAppend(start, d, WipeArmed);
    var rest := WorkOn(start, d + [WipeArmed], sid);
    more := d + [WipeArmed] + rest;
  }

  /** The sweep tests slot 0 before the final frame finds it, and wipes it after the fill. */
  lemma WipeBetween(start: Pool, actions: seq<Action>, job: Job, sweep: int) returns (more: seq<Action>)
    requires job.Inbound? && job.plain.Some? && !IsControl(job.plain.value) && IsFinal(job.plain.value) && |start.lanes| > 0
    requires job.s < TWO64 && Fits(job.plain.value)
    requires var a := Run(start, actions);
             At(a, ShardOf(job.sid[0], |a.lanes|), Idle) && job.sid in a.flows && !Rejects(a.flows[job.sid].view, job.s) &&
             |a.flows[job.sid].store.table| > 0 && Reassembly.Holds(a.flows[job.sid].store.table[0], job.plain.value.header.packetId) &&
             Expired(a.flows[job.sid].store.table[0], sweep)
    ensures job.sid in Run(start, more).flows
    ensures Run(start, more).flows[job.sid].store.writes == Run(start, actions).flows[job.sid].store.writes + [Write(job.s, [])]
  {
    var sid, f, i := job.sid, job.plain.value, ShardOf(job.sid[0], |start.lanes|);
    assert FirstHolding(Run(start, actions).flows[sid].store.table, f.header.packetId) == 0;
    var c := ToMarked(start, actions, job);
    var arm := TestSlot(sid, 0, sweep);
    RunAppend(start, c, arm);
    ToPicked(Run(start, c + [arm]), i, job);
    RunAppend(start, c + [arm], Work(i));
    more := WipeAfterFill(start, c + [arm] + [Work(i)], job);
  }

  /** The run the sweep spoils: from any initial pool, a packet of two frames whose second comes
      while the sweep is between testing and wiping the first one's slot, more than 20 seconds
      idle, makes the session write an empty packet. */
  lemma SweepRace(start: Pool, sid: SessionId, p: Packet, first: int, second: int, sweep: int) returns (actions: seq<Action>)
    requires Initial(start) && sid in start.flows && Empty(start.flows[sid].start.table)
    requires Sendable(p) && Count(p) == 2 && sweep - first > 20
    ensures sid in Run(start, actions).flows && Run(start, actions).flows[sid].store.writes == [Write(2, [])]
  {
    FragmentRange(p, 0);
    FragmentRange(p, 1);
    FragmentFits(p, 0);
    FragmentFits(p, 1);
    var c := FirstWaits(start, sid, Fragment(p, 0), first);
    actions := WipeBetween(start, c, Inbound(sid, 2, Some(Fragment(p, 1)), second), sweep);
  }

  /** Nothing need have been idle: a packet of one frame is enough, if the sweep tests its slot
      after it is claimed and before it is stamped, when its time still reads zero. */
  lemma FreshRace(start: Pool, sid: SessionId, p: Packet, now: int, sweep: int) returns (actions: seq<Action>)
    requires Initial(start) && sid in start.flows && Empty(start.flows[sid].start.table)
    requires Sendable(p) && Count(p) == 1 && sweep > 20
    ensures sid in Run(start, actions).flows && Run(start, actions).flows[sid].store.writes == [Write(1, [])]
  {
    FragmentRange(p, 0);
    FragmentFits(p, 0);
    var c := FirstPicked(start, sid, Fragment(p, 0), now);
    var arm := TestSlot(sid, 0, sweep);
    RunAppend(start, c, arm);
    actions := WipeAfterFill(start, c + [arm], Inbound(sid, 1, Some(Fragment(p, 0)), now));
  }

  // ---------- Why the shards matter ----------

  ghost predicate BothAt(a: Pool, job: Job, ph: Phase)
  {
    |a.lanes| >= 2 && job.Inbound? && job.sid in a.flows && InHand(ph) == [job] && a.lanes[0].phase == ph && a.lanes[1].phase == ph
  }

  /** The first two workers take one step each. */
  lemma BothStep(start: Pool, actions: seq<Action>, job: Job, ph: Phase, after: Phase) returns (more: seq<Action>)
    requires |start.lanes| >= 2 && BothAt(Run(start, actions), job, ph)
    requires var f := Run(start, actions).flows[job.sid];
             match ph
             case Taken(_) => !Rejects(f.view, job.s) && after == Passed(job)
             case Passed(_) => job.plain.Some? && after == WorkerPool.Opened(job)
             case _ => false
    ensures BothAt(Run(start, more), job, after) && Run(start, more).flows == Run(start, actions).flows
  {
    RunAppend(start, actions, Work(0));
    RunAppend(start, actions + [Work(0)], Work(1));
    more := actions + [Work(0)] + [Work(1)];
    var a := Run(start, actions);
    assert Step(a, Work(0)).flows == a.flows;
  }

  lemma BothMark(a: Pool, job: Job)
    requires BothAt(a, job, WorkerPool.Opened(job))
    ensures var b := Step(Step(a, Work(0)), Work(1));
            job.sid in b.flows && b.flows[job.sid].accepted == a.flows[job.sid].accepted + [job.s] + [job.s]
  {
  }

  lemma Queued(a: Pool, job: Job, key: byte)
    requires |a.lanes| > 0 && !a.closing && !a.sharded && job.Inbound? && job.s < TWO64
    requires a.lanes[ShardOf(key, |a.lanes|)].queue == []
    ensures var i := ShardOf(key, |a.lanes|);
            Step(a, Submit(job, key)) == a.(lanes := a.lanes[i := a.lanes[i].(queue := [job], submitted := a.lanes[i].submitted + [job])])
  {
    assert a.lanes[ShardOf(key, |a.lanes|)].queue + [job] == [job];
  }

  lemma Fetched(a: Pool, i: nat, job: Job)
    requires i < |a.lanes| && a.lanes[i].queue == [job] && a.lanes[i].phase == Idle
    ensures Step(a, Work(i)) == a.(lanes := a.lanes[i := a.lanes[i].(queue := [], phase := Taken(job))])
  {
    assert a.lanes[i].queue[1..] == [];
  }

  /** The dispatcher gives the same datagram to the first two shards. */
  lemma GivenTwice(start: Pool, job: Job) returns (more: seq<Action>)
    requires Initial(start) && !start.sharded && |start.lanes| >= 2 && job.Inbound? && job.sid in start.flows && job.s < TWO64
    ensures BothAt(Run(start, more), job, Taken(job)) && Run(start, more).flows == start.flows
  {
    var n := |start.lanes|;
    assert ShardOf(0, n) == 0 && ShardOf(1, n) == 1;
    var c: seq<Action> := [];
    var x, y := Submit(job, 0), Submit(job, 1);
    RunAppend(start, c, x);
    Queued(start, job, 0);
    RunAppend(start, c + [x], y);
    Queued(Run(start, c + [x]), job, 1);
    var d := c + [x] + [y];
    RunAppend(start, d, Work(0));
    Fetched(Run(start, d), 0, job);
    RunAppend(start, d + [Work(0)], Work(1));
    Fetched(Run(start, d + [Work(0)]), 1, job);
    more := d + [Work(0)] + [Work(1)];
  }

  /** Without sharding the handler is not safe: from any initial pool of two or more workers
      whose dispatcher may pick any shard, there is a run in which a datagram handed over twice
      has its sequence number accepted twice. */
  lemma RaceWithoutSharding(start: Pool, job: Job) returns (actions: seq<Action>)
    requires Initial(start) && !start.sharded && |start.lanes| >= 2
    requires job.Inbound? && job.sid in start.flows && job.s < TWO64 && Accepts(start.flows[job.sid].start, job.s, job.plain)
    ensures job.sid in Run(start, actions).flows && !Distinct(Run(start, actions).flows[job.sid].accepted)
  {
    assert NewFlow(start.flows[job.sid]);
    var c := GivenTwice(start, job);
    c := BothStep(start, c, job, Taken(job), Passed(job));
    c := BothStep(start, c, job, Passed(job), WorkerPool.Opened(job));
    BothMark(Run(start, c), job);
    RunAppend(start, c, Work(0));
    RunAppend(start, c + [Work(0)], Work(1));
    actions := c + [Work(0)] + [Work(1)];
    var log := Run(start, actions).flows[job.sid].accepted;
    assert log[0] == log[1] == job.s;
  }
}
