/** How the pool takes jobs in and ends: what is refused, that closing always leads to an end,
    and that nothing queued is lost unless a worker was told to quit. */
module PoolShutdown {
  import opened Words
  import opened Frames
  import opened Reassembly
  import opened DataPath
  import opened StoreSteps
  import opened WorkerPool

  /** A job offered under its key while the pool is open is queued last in the shard its key
      selects, unless 4096 are waiting there; otherwise nothing changes. */
  lemma SubmitIff(a: Pool, job: Job, key: byte)
    requires |a.lanes| > 0 && (job.Inbound? ==> key == job.sid[0] && job.s < 0x1_0000_0000_0000_0000) && (job.Other? ==> key == job.key)
    ensures var i, b := key as nat % |a.lanes|, Step(a, Submit(job, key));
            if !a.closing && |a.lanes[i].queue| < 4096
            then b == a.(lanes := a.lanes[i := a.lanes[i].(queue := a.lanes[i].queue + [job], submitted := a.lanes[i].submitted + [job])])
            else b == a
  {
  }

  /** A worker handed a job that is no datagram of a known session is done with it in one step:
      it leaves exactly when told to quit, and is otherwise ready for the next. */
  lemma OtherJobs(a: Pool, i: nat, job: Job)
    requires i < |a.lanes| && a.lanes[i].phase == Taken(job) && !(job.Inbound? && job.sid in a.flows)
    ensures var b := Step(a, Work(i));
            b == a.(lanes := a.lanes[i := a.lanes[i].(phase := if job == Quit then Exited else Idle, finished := a.lanes[i].finished + [job])])
  {
  }

  // ---------- What closing leaves ----------

  /** A worker that has left was told to quit, or found the pool closing and its queue empty. */
  ghost predicate LeftOk(l: Lane, closing: bool)
  {
    && (l.phase.Exited? ==> Quit in l.finished || (closing && l.queue == []))
    && (l.drained != [] ==> Quit in l.finished)
  }

  lemma StepLeftOk(a: Pool, action: Action, i: nat)
    requires |a.lanes| > 0 && i < |a.lanes| && LeftOk(a.lanes[i], a.closing)
    ensures |Step(a, action).lanes| == |a.lanes| && LeftOk(Step(a, action).lanes[i], Step(a, action).closing)
  {
    match action {
      case Work(k) => if k == i { WorkLeftOk(a, i); }
      case _ =>
    }
  }

  lemma WorkLeftOk(a: Pool, i: nat)
    requires i < |a.lanes| && LeftOk(a.lanes[i], a.closing)
    ensures LeftOk(WorkerStep(a, i).lanes[i], a.closing)
  {
    var l := a.lanes[i];
    if InHand(l.phase) != [] {
      FinishLeftOk(l, InHand(l.phase)[0], a.closing);
    }
  }

  lemma FinishLeftOk(l: Lane, job: Job, closing: bool)
    requires LeftOk(l, closing)
    ensures LeftOk(Finish(l, job), closing)
  {
    var k := Finish(l, job);
    assert forall x :: x in l.finished ==> x in k.finished;
    assert job in k.finished;
  }

  lemma {:induction false} RunLeftOk(start: Pool, actions: seq<Action>, i: nat)
    requires Initial(start) && i < |start.lanes|
    ensures LeftOk(Run(start, actions).lanes[i], Run(start, actions).closing)
  {
    if actions != [] {
      var n := |actions| - 1;
      RunLeftOk(start, actions[..n], i);
      StepLeftOk(Run(start, actions[..n]), actions[n], i);
    }
  }

  /** Once all shards are joined, every job a shard took in was handled, in order, unless its
      worker was told to quit. */
  lemma NothingLost(start: Pool, actions: seq<Action>, i: nat)
    requires Initial(start) && start.sharded && i < |start.lanes| && Run(start, actions).joined == |start.lanes|
    ensures var l := Run(start, actions).lanes[i]; Quit in l.finished || l.finished == l.submitted
  {
    RunLeftOk(start, actions, i);
    JobsConserved(start, actions, i);
  }

  // ---------- Closing always leads to an end ----------

  /** How far worker i is from leaving. */
  function PhaseRank(ph: Phase, b: Busy): nat
  {
    match ph
    case Exited => 0
    case Idle => 1
    case Storing(_) => 2 + Rank(b)
    case Marked(_) => 10
    case Opened(_) => 11
    case Passed(_) => 12
    case Taken(_) => 13
  }

  function BusyOf(a: Pool, ph: Phase): Busy
  {
    if InHand(ph) != [] && InHand(ph)[0].Inbound? && InHand(ph)[0].sid in a.flows
    then a.flows[InHand(ph)[0].sid].store.busy else Resting
  }

  function Distance(a: Pool, i: nat): nat
    requires i < |a.lanes|
  {
    16 * |a.lanes[i].queue| + PhaseRank(a.lanes[i].phase, BusyOf(a, a.lanes[i].phase))
  }

  lemma NextRank(st: Store)
    ensures Rank(Next(st).busy) < Rank(st.busy) || Next(st).busy.Resting?
  {
  }

  lemma WorkCloser(a: Pool, i: nat)
    requires i < |a.lanes| && a.closing && !a.lanes[i].phase.Exited?
    ensures |WorkerStep(a, i).lanes| == |a.lanes| && WorkerStep(a, i).closing && Distance(WorkerStep(a, i), i) < Distance(a, i)
    ensures forall k :: 0 <= k < |a.lanes| && k != i ==> WorkerStep(a, i).lanes[k] == a.lanes[k]
  {
    var l := a.lanes[i];
    if l.phase.Storing? && l.phase.job.Inbound? && l.phase.job.sid in a.flows {
      NextRank(a.flows[l.phase.job.sid].store);
    }
  }

  lemma RunMore(start: Pool, actions: seq<Action>, x: Action)
    requires |start.lanes| > 0
    ensures Run(start, actions + [x]) == Step(Run(start, actions), x)
  {
    assert (actions + [x])[..|actions|] == actions;
  }

  /** Worker i alone, on a closing pool, leaves. */
  lemma {:induction false} Leaves(start: Pool, actions: seq<Action>, i: nat) returns (more: seq<Action>)
    requires |start.lanes| > 0 && i < |start.lanes| && Run(start, actions).closing
    ensures Run(start, more).closing && Run(start, more).lanes[i].phase.Exited? && Run(start, more).joined == Run(start, actions).joined
    ensures forall k :: 0 <= k < |start.lanes| && k != i ==> Run(start, more).lanes[k] == Run(start, actions).lanes[k]
    decreases Distance(Run(start, actions), i)
  {
    var a := Run(start, actions);
    more := actions;
    if !a.lanes[i].phase.Exited? {
      RunMore(start, actions, Work(i));
      WorkCloser(a, i);
      more := Leaves(start, actions + [Work(i)], i);
    }
  }

  /** From any state of any run, closing the pool, letting the workers finish and joining them
      one after the other ends with all of them joined. */
  lemma {:induction false} ShutdownCompletes(start: Pool, actions: seq<Action>) returns (more: seq<Action>)
    requires Initial(start) && start.sharded
    ensures Run(start, more).closing && Run(start, more).joined == |start.lanes|
  {
    RunMore(start, actions, Close);
    more := actions + [Close];
    RunOk(start, more);
    while Run(start, more).joined < |start.lanes|
      invariant Run(start, more).closing && Run(start, more).joined <= |start.lanes|
      decreases |start.lanes| - Run(start, more).joined
    {
      var i := Run(start, more).joined;
      more := Leaves(start, more, i);
      RunMore(start, more, Join);
      more := more + [Join];
    }
  }

  // ---------- What the sweep aims at ----------

  /** The last test that armed the sweep found the slot's entry open and idle for more than 20
      seconds. */
  ghost predicate AimedWell(start: Pool, actions: seq<Action>, aim: Aim)
    requires |start.lanes| > 0
  {
    actions != [] &&
    var n, x := |actions| - 1, actions[|actions| - 1];
    var a := Run(start, actions[..n]);
    (x.TestSlot? && x.sid == aim.sid && x.j == aim.j && x.sid in a.flows && x.j < |a.flows[x.sid].store.table| &&
     a.flows[x.sid].store.table[x.j].active && x.now - a.flows[x.sid].store.table[x.j].lastActivity > 20) ||
    AimedWell(start, actions[..n], aim)
  }

  /** In every run the sweep is only ever about to wipe a slot it found idle that long. */
  lemma {:induction false} AimsAtIdle(start: Pool, actions: seq<Action>)
    requires Initial(start)
    ensures Run(start, actions).armed.Some? ==> AimedWell(start, actions, Run(start, actions).armed.value)
  {
    if actions != [] {
      AimsAtIdle(start, actions[..|actions| - 1]);
    }
  }

  /** A wipe zeroes the slot aimed at, whatever it holds by then, and nothing else, and each test
      leads to at most one wipe. */
  lemma WipesOnce(a: Pool)
    requires |a.lanes| > 0
    ensures var b := Step(a, WipeArmed);
            b.armed.None? && b.lanes == a.lanes && b.closing == a.closing && b.joined == a.joined && b.flows.Keys == a.flows.Keys &&
            (forall sid :: sid in a.flows && (a.armed.None? || a.armed.value.sid != sid) ==> b.flows[sid] == a.flows[sid]) &&
            (a.armed.Some? && a.armed.value.sid in a.flows ==>
               var j, t, u := a.armed.value.j, a.flows[a.armed.value.sid].store.table, b.flows[a.armed.value.sid].store.table;
               |u| == |t| && (j < |t| ==> u[j] == Entry(false, 0, 0, 0, 0, Zeros(2500))) &&
               forall k :: 0 <= k < |t| && k != j ==> u[k] == t[k])
  {
  }
}
