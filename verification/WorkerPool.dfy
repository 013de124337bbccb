/** The sharded worker pool: one dispatcher that routes jobs by session id, and any number of
    workers that each run their own queue.  The handler's replay check, decryption, window
    update and the steps of reassembly are interleaved in every possible way with the other
    workers, the dispatcher and the maintenance sweep, whose test of a slot and wipe of it are
    two steps; nothing locks the window or the table. */
module WorkerPool {
  import opened Words
  import opened Frames
  import opened Fragments
  import opened ReplayView
  import opened Reassembly
  import opened DataPath
  import opened StoreSteps
  import Safety = ReassemblySafety

  /** JOB_TYPE_INBOUND_CRYPTO of type DATA, any other work, or JOB_TYPE_SHUTDOWN. */
  datatype Job =
    | Inbound(sid: SessionId, s: nat, plain: Option<Frame>, now: int)
    | Other(key: byte)
    | Quit

  /** Where a worker stands inside its loop. */
  datatype Phase =
    | Idle
    | Taken(job: Job)
    | Passed(job: Job)
    | Opened(job: Job)
    | Marked(job: Job)
    | Storing(job: Job)
    | Exited

  /** A shard: its queue, its worker, and what happened to the jobs it was given. */
  datatype Lane = Lane(queue: seq<Job>, phase: Phase, submitted: seq<Job>, finished: seq<Job>, drained: seq<Job>)

  /** A session's window, accepted numbers and reassembly store, and the inputs that took
      effect: a datagram when it is refused or finds its slot, a wipe when it lands. */
  datatype Flow = Flow(start: Receiver, view: View, accepted: seq<nat>, store: Store, inputs: seq<Input>)

  /** A slot the sweep found expired and is about to zero. */
  datatype Aim = Aim(sid: SessionId, j: nat)

  /** `closing` is set by thread_pool_destroy, which then joins and drains shard after shard;
      `sharded` says whether the dispatcher keeps to the shard of the session. */
  datatype Pool = Pool(lanes: seq<Lane>, flows: map<SessionId, Flow>, sharded: bool, armed: Option<Aim>, closing: bool, joined: nat)

  const MAX_QUEUE: nat := 4096

  /** One atomic step of the dispatcher, of worker i, or of the maintenance sweep. */
  datatype Action =
    | Submit(job: Job, key: byte)
    | Work(i: nat)
    | TestSlot(sid: SessionId, j: nat, now: int)
    | WipeArmed
    | Close
    | Join

  /** The dispatcher's shard key: the first byte of the session id for DATA. */
  predicate RightKey(job: Job, key: byte)
  {
    match job
    case Inbound(sid, _, _, _) => key == sid[0]
    case Other(k) => key == k
    case Quit => true
  }

  predicate Word64(job: Job) { job.Inbound? ==> job.s < TWO64 }

  function ShardOf(key: byte, n: nat): nat
    requires n > 0
  {
    key as nat % n
  }

  // ---------- Steps ----------

  /** The job a worker holds, if any. */
  function InHand(ph: Phase): seq<Job>
  {
    match ph
    case Idle => []
    case Exited => []
    case Taken(j) => [j]
    case Passed(j) => [j]
    case Opened(j) => [j]
    case Marked(j) => [j]
    case Storing(j) => [j]
  }

  function Finish(l: Lane, job: Job): Lane
  {
    l.(phase := if job.Quit? then Exited else Idle, finished := l.finished + [job])
  }

  /** An idle worker takes the head of its queue; on an empty queue it leaves only when closing. */
  function Fetch(l: Lane, closing: bool): Lane
  {
    if l.queue != [] then l.(queue := l.queue[1..], phase := Taken(l.queue[0]))
    else if closing then l.(phase := Exited)
    else l
  }

  /** The store after the worker's step on it. */
  function StoreAfter(ph: Phase, st: Store): Store
    requires InHand(ph) != [] && InHand(ph)[0].Inbound?
  {
    var j := InHand(ph)[0];
    if ph.Marked? && j.plain.Some? then Begin(st, j.s, j.plain.value, j.now)
    else if ph.Storing? then Next(st)
    else st
  }

  /** Worker step on a session's datagram: the lane after it. */
  function LaneAfter(l: Lane, f: Flow): Lane
    requires InHand(l.phase) != [] && InHand(l.phase)[0].Inbound?
  {
    var j := InHand(l.phase)[0];
    match l.phase
    case Taken(_) => if Rejects(f.view, j.s) then Finish(l, j) else l.(phase := Passed(j))
    case Passed(_) => if j.plain.None? then Finish(l, j) else l.(phase := Opened(j))
    case Opened(_) => l.(phase := Marked(j))
    case _ => if StoreAfter(l.phase, f.store).busy.Resting? then Finish(l, j) else l.(phase := Storing(j))
  }

  function AsInput(j: Job): Input
    requires j.Inbound?
  {
    Datagram(j.s, j.plain, j.now)
  }

  /** The same step on the session: marking writes the window, storing works on the table. */
  function FlowAfter(ph: Phase, f: Flow): Flow
    requires InHand(ph) != [] && InHand(ph)[0].Inbound?
  {
    var j := InHand(ph)[0];
    match ph
    case Taken(_) => if Rejects(f.view, j.s) then f.(inputs := f.inputs + [AsInput(j)]) else f
    case Passed(_) => if j.plain.None? then f.(inputs := f.inputs + [AsInput(j)]) else f
    case Opened(_) => f.(view := Advance(f.view, j.s), accepted := f.accepted + [j.s])
    case Marked(_) => f.(store := StoreAfter(ph, f.store), inputs := f.inputs + [AsInput(j)])
    case Storing(_) => f.(store := StoreAfter(ph, f.store))
  }

  function WorkerStep(a: Pool, i: nat): Pool
    requires i < |a.lanes|
  {
    var l := a.lanes[i];
    if l.phase.Exited? then a
    else if l.phase.Idle? then a.(lanes := a.lanes[i := Fetch(l, a.closing)])
    else
      var j := InHand(l.phase)[0];
      if j.Inbound? && j.sid in a.flows then
        var f := a.flows[j.sid];
        a.(lanes := a.lanes[i := LaneAfter(l, f)], flows := a.flows[j.sid := FlowAfter(l.phase, f)])
      else
        a.(lanes := a.lanes[i := Finish(l, j)])
  }

  /** `enqueue_to_shard`: refuse when the shard holds 4096 jobs. */
  function Enqueue(l: Lane, job: Job): Lane
  {
    if |l.queue| >= MAX_QUEUE then l
    else l.(queue := l.queue + [job], submitted := l.submitted + [job])
  }

  function WipeFlow(f: Flow, j: nat): Flow
  {
    f.(store := WipeStore(f.store, j), inputs := f.inputs + [WipeSlot(j)])
  }

  function Step(a: Pool, action: Action): Pool
    requires |a.lanes| > 0
  {
    match action
    case Submit(job, key) =>
      var i := ShardOf(key, |a.lanes|);
      if a.closing || !Word64(job) || (a.sharded && !RightKey(job, key)) then a
      else a.(lanes := a.lanes[i := Enqueue(a.lanes[i], job)])
    case Work(i) => if i < |a.lanes| then WorkerStep(a, i) else a
    case TestSlot(sid, j, now) =>
      if sid in a.flows && j < |a.flows[sid].store.table| && Expired(a.flows[sid].store.table[j], now)
      then a.(armed := Some(Aim(sid, j))) else a
    case WipeArmed =>
      if a.armed.None? then a
      else if a.armed.value.sid !in a.flows then a.(armed := None)
      else
        var aim := a.armed.value;
        a.(flows := a.flows[aim.sid := WipeFlow(a.flows[aim.sid], aim.j)], armed := None)
    case Close => a.(closing := true)
    case Join =>
      if !a.closing || a.joined >= |a.lanes| || !a.lanes[a.joined].phase.Exited? then a
      else
        var l := a.lanes[a.joined];
        a.(lanes := a.lanes[a.joined := l.(queue := [], drained := l.drained + l.queue)], joined := a.joined + 1)
  }

  function Run(start: Pool, actions: seq<Action>): (r: Pool)
    requires |start.lanes| > 0
    ensures |r.lanes| == |start.lanes| && r.sharded == start.sharded
  {
    if actions == [] then start else Step(Run(start, actions[..|actions| - 1]), actions[|actions| - 1])
  }

  /** A pool of idle workers over sessions that have received nothing yet, on tables taken over
      from whatever sessions came before. */
  ghost predicate Initial(a: Pool)
  {
    && |a.lanes| > 0 && !a.closing && a.joined == 0 && a.armed.None?
    && (forall i :: 0 <= i < |a.lanes| ==> a.lanes[i] == Lane([], Idle, [], [], []))
    && (forall sid :: sid in a.flows ==> NewFlow(a.flows[sid]))
  }

  ghost predicate NewFlow(f: Flow)
  {
    Fresh(f.start) && f == Flow(f.start, f.start.view, [], Store(f.start.table, Resting, []), [])
  }

  // ---------- Lanes: order and conservation ----------

  ghost predicate Routed(jobs: seq<Job>, i: nat, n: nat)
    requires n > 0
  {
    forall k :: 0 <= k < |jobs| && jobs[k].Inbound? ==> jobs[k].s < TWO64 && ShardOf(jobs[k].sid[0], n) == i
  }

  /** Every job a shard took in is finished, in hand, drained or waiting, in submission order. */
  ghost predicate LaneOk(l: Lane, i: nat, n: nat)
    requires n > 0
  {
    && l.submitted == l.finished + InHand(l.phase) + l.drained + l.queue
    && |l.queue| <= MAX_QUEUE
    && Routed(l.submitted, i, n)
    && (l.drained != [] ==> l.phase.Exited?)
  }

  ghost predicate LanesOk(a: Pool)
  {
    |a.lanes| > 0 && forall i :: 0 <= i < |a.lanes| ==> LaneOk(a.lanes[i], i, |a.lanes|)
  }

  lemma EnqueueOk(l: Lane, job: Job, key: byte, n: nat)
    requires n > 0 && RightKey(job, key) && Word64(job) && LaneOk(l, ShardOf(key, n), n)
    ensures LaneOk(Enqueue(l, job), ShardOf(key, n), n)
  {
  }

  lemma FetchOk(l: Lane, closing: bool, i: nat, n: nat)
    requires n > 0 && LaneOk(l, i, n) && l.phase.Idle?
    ensures LaneOk(Fetch(l, closing), i, n)
  {
    assert l.queue != [] ==> l.queue == [l.queue[0]] + l.queue[1..];
  }

  lemma FinishOk(l: Lane, i: nat, n: nat)
    requires n > 0 && LaneOk(l, i, n) && InHand(l.phase) != []
    ensures LaneOk(Finish(l, InHand(l.phase)[0]), i, n)
  {
  }

  lemma DrainOk(l: Lane, i: nat, n: nat)
    requires n > 0 && LaneOk(l, i, n) && l.phase.Exited?
    ensures LaneOk(l.(queue := [], drained := l.drained + l.queue), i, n)
  {
  }

  lemma WorkerLanesOk(a: Pool, i: nat)
    requires LanesOk(a) && i < |a.lanes|
    ensures LanesOk(WorkerStep(a, i))
  {
    var l, n := a.lanes[i], |a.lanes|;
    if l.phase.Idle? {
      FetchOk(l, a.closing, i, n);
    } else if !l.phase.Exited? {
      FinishOk(l, i, n);
      var j := InHand(l.phase)[0];
      if j.Inbound? && j.sid in a.flows {
        assert LaneOk(LaneAfter(l, a.flows[j.sid]), i, n);
      }
    }
  }

  lemma StepLanesOk(a: Pool, action: Action)
    requires LanesOk(a) && a.sharded
    ensures LanesOk(Step(a, action))
  {
    match action {
      case Submit(job, key) =>
        if RightKey(job, key) && Word64(job) { EnqueueOk(a.lanes[ShardOf(key, |a.lanes|)], job, key, |a.lanes|); }
      case Work(i) => if i < |a.lanes| { WorkerLanesOk(a, i); }
      case TestSlot(_, _, _) =>
      case WipeArmed =>
      case Close =>
      case Join =>
        if a.joined < |a.lanes| && a.lanes[a.joined].phase.Exited? { DrainOk(a.lanes[a.joined], a.joined, |a.lanes|); }
    }
  }

  // ---------- Flows: each session is handled as if alone ----------

  /** A session's datagrams among jobs, in order. */
  function SessionInputs(jobs: seq<Job>, sid: SessionId): seq<Input>
  {
    if jobs == [] then []
    else
      var n := |jobs| - 1;
      if jobs[n].Inbound? && jobs[n].sid == sid then SessionInputs(jobs[..n], sid) + [AsInput(jobs[n])]
      else SessionInputs(jobs[..n], sid)
  }

  /** The inputs without the sweeps. */
  function Datagrams(inputs: seq<Input>): seq<Input>
  {
    if inputs == [] then []
    else
      var n := |inputs| - 1;
      if inputs[n].Datagram? then Datagrams(inputs[..n]) + [inputs[n]] else Datagrams(inputs[..n])
  }

  predicate Holds(ph: Phase, sid: SessionId)
  {
    InHand(ph) != [] && InHand(ph)[0].Inbound? && InHand(ph)[0].sid == sid
  }

  /** The session's datagrams that took effect, in order. */
  function Handled(l: Lane, sid: SessionId): seq<Input>
  {
    SessionInputs(if l.phase.Storing? then l.finished + InHand(l.phase) else l.finished, sid)
  }

  /** What the worker's phase says about the session it is working for, given the trace tr of
      the inputs that took effect. */
  ghost predicate PhaseOk(ph: Phase, sid: SessionId, tr: Trace, f: Flow)
  {
    && (f.store.busy.Resting? <==> !(ph.Storing? && Holds(ph, sid)))
    && if !Holds(ph, sid) then f.view == tr.receiver.view && f.accepted == tr.accepted
       else
         var j := InHand(ph)[0];
         (ph.Passed? || ph.Opened? || ph.Marked? ==> !Rejects(tr.receiver.view, j.s)) &&
         (ph.Opened? || ph.Marked? ==> j.plain.Some?) &&
         if ph.Marked? then f.view == Advance(tr.receiver.view, j.s) && f.accepted == tr.accepted + [j.s]
         else f.view == tr.receiver.view && f.accepted == tr.accepted
  }

  /** Refinement of the window: it is what handling the session's datagrams one after the
      other, in submission order, would leave, whatever the sweep does. */
  ghost predicate FlowOk(l: Lane, f: Flow, sid: SessionId)
  {
    && Fresh(f.start) && WellTyped(f.inputs)
    && Datagrams(f.inputs) == Handled(l, sid)
    && PhaseOk(l.phase, sid, Process(f.start, f.inputs), f)
  }

  /** Refinement of the store: with the handling in progress run to its end, the table and the
      writes are those of handling one input after the other. */
  ghost predicate TableOk(f: Flow)
  {
    var tr := Process(f.start, f.inputs);
    Finished(f.store) == Store(tr.receiver.table, Resting, tr.writes)
  }

  ghost predicate FlowsOk(a: Pool)
  {
    |a.lanes| > 0 &&
    forall sid :: sid in a.flows ==> FlowOk(a.lanes[ShardOf(sid[0], |a.lanes|)], a.flows[sid], sid)
  }

  /** What a step does to one session. */
  function NextFlow(a: Pool, action: Action, sid: SessionId): Flow
    requires sid in a.flows
  {
    var f := a.flows[sid];
    match action
    case Work(i) => if i < |a.lanes| && Holds(a.lanes[i].phase, sid) then FlowAfter(a.lanes[i].phase, f) else f
    case WipeArmed => if a.armed.Some? && a.armed.value.sid == sid then WipeFlow(f, a.armed.value.j) else f
    case _ => f
  }

  lemma FlowStep(a: Pool, action: Action, sid: SessionId)
    requires |a.lanes| > 0 && sid in a.flows
    ensures sid in Step(a, action).flows && Step(a, action).flows[sid] == NextFlow(a, action, sid)
  {
  }

  lemma ProcessOne(start: Receiver, inputs: seq<Input>, input: Input)
    ensures Process(start, inputs + [input]) == Handle(Process(start, inputs), input)
    ensures Datagrams(inputs + [input]) == if input.Datagram? then Datagrams(inputs) + [input] else Datagrams(inputs)
  {
    assert (inputs + [input])[..|inputs|] == inputs;
  }

  lemma FinishedOne(jobs: seq<Job>, job: Job, sid: SessionId)
    ensures SessionInputs(jobs + [job], sid) ==
            if job.Inbound? && job.sid == sid then SessionInputs(jobs, sid) + [AsInput(job)] else SessionInputs(jobs, sid)
  {
    assert (jobs + [job])[..|jobs|] == jobs;
  }

  /** The worker hands a datagram's effect over exactly when it is logged as an input. */
  lemma HandledTogether(l: Lane, f: Flow, sid: SessionId)
    requires Holds(l.phase, sid)
    ensures var k, g, j := LaneAfter(l, f), FlowAfter(l.phase, f), InHand(l.phase)[0];
            g.start == f.start &&
            ((g.inputs == f.inputs && Handled(k, sid) == Handled(l, sid)) ||
             (g.inputs == f.inputs + [AsInput(j)] && !l.phase.Storing? && Handled(k, sid) == SessionInputs(l.finished + [j], sid)))
  {
  }

  lemma InputLogged(inputs: seq<Input>, more: seq<Input>, jobs: seq<Job>, done: seq<Job>, j: Job, sid: SessionId)
    requires j.Inbound? && j.sid == sid && j.s < TWO64 && WellTyped(inputs) && Datagrams(inputs) == SessionInputs(jobs, sid)
    requires done == jobs + [j] && more == inputs + [AsInput(j)]
    ensures WellTyped(more) && Datagrams(more) == SessionInputs(done, sid)
  {
    assert more[..|inputs|] == inputs && more[|inputs|] == AsInput(j);
    assert done[..|jobs|] == jobs && done[|jobs|] == j;
  }

  lemma OwnInputsOk(l: Lane, f: Flow, sid: SessionId)
    requires FlowOk(l, f, sid) && Holds(l.phase, sid) && InHand(l.phase)[0].s < TWO64
    ensures var k, g := LaneAfter(l, f), FlowAfter(l.phase, f);
            g.start == f.start && WellTyped(g.inputs) && Datagrams(g.inputs) == Handled(k, sid)
  {
    var g, j := FlowAfter(l.phase, f), InHand(l.phase)[0];
    HandledTogether(l, f, sid);
    if g.inputs != f.inputs {
      InputLogged(f.inputs, g.inputs, l.finished, l.finished + [j], j, sid);
    }
  }

  lemma TakenPhaseOk(l: Lane, f: Flow, sid: SessionId)
    requires FlowOk(l, f, sid) && Holds(l.phase, sid) && l.phase.Taken?
    ensures var k, g := LaneAfter(l, f), FlowAfter(l.phase, f); PhaseOk(k.phase, sid, Process(g.start, g.inputs), g)
  {
    var j, tr := l.phase.job, Process(f.start, f.inputs);
    ProcessOne(f.start, f.inputs, AsInput(j));
    if Rejects(f.view, j.s) {
      assert Handle(tr, AsInput(j)) == tr;
    }
  }

  lemma PassedPhaseOk(l: Lane, f: Flow, sid: SessionId)
    requires FlowOk(l, f, sid) && Holds(l.phase, sid) && l.phase.Passed?
    ensures var k, g := LaneAfter(l, f), FlowAfter(l.phase, f); PhaseOk(k.phase, sid, Process(g.start, g.inputs), g)
  {
    var j, tr := l.phase.job, Process(f.start, f.inputs);
    ProcessOne(f.start, f.inputs, AsInput(j));
    if j.plain.None? {
      assert Handle(tr, AsInput(j)) == tr;
    }
  }

  lemma MarkedPhaseOk(l: Lane, f: Flow, sid: SessionId)
    requires FlowOk(l, f, sid) && Holds(l.phase, sid) && l.phase.Marked?
    ensures var k, g := LaneAfter(l, f), FlowAfter(l.phase, f); PhaseOk(k.phase, sid, Process(g.start, g.inputs), g)
  {
    var j, tr := l.phase.job, Process(f.start, f.inputs);
    ProcessOne(f.start, f.inputs, AsInput(j));
    assert Accepts(tr.receiver, j.s, j.plain);
  }

  lemma OwnPhaseOk(l: Lane, f: Flow, sid: SessionId)
    requires FlowOk(l, f, sid) && Holds(l.phase, sid)
    ensures var k, g := LaneAfter(l, f), FlowAfter(l.phase, f); PhaseOk(k.phase, sid, Process(g.start, g.inputs), g)
  {
    match l.phase {
      case Marked(_) => MarkedPhaseOk(l, f, sid);
      case Taken(_) => TakenPhaseOk(l, f, sid);
      case Passed(_) => PassedPhaseOk(l, f, sid);
      case _ =>
    }
  }

  /** The worker's own session moves as the sequential handler does. */
  lemma OwnFlowOk(l: Lane, f: Flow, sid: SessionId)
    requires FlowOk(l, f, sid) && Holds(l.phase, sid) && InHand(l.phase)[0].s < TWO64
    ensures FlowOk(LaneAfter(l, f), FlowAfter(l.phase, f), sid)
  {
    OwnInputsOk(l, f, sid);
    OwnPhaseOk(l, f, sid);
  }

  /** No other session notices. */
  lemma OtherFlowOk(l: Lane, k: Lane, f: Flow, sid: SessionId)
    requires FlowOk(l, f, sid) && !Holds(l.phase, sid) && InHand(l.phase) != []
    requires (k.finished == l.finished && InHand(k.phase) == InHand(l.phase)) ||
             k == Finish(l, InHand(l.phase)[0])
    ensures FlowOk(k, f, sid)
  {
    FinishedOne(l.finished, InHand(l.phase)[0], sid);
  }

  lemma WipeFlowOk(l: Lane, f: Flow, sid: SessionId, j: nat)
    requires FlowOk(l, f, sid)
    ensures FlowOk(l, WipeFlow(f, j), sid)
  {
    ProcessOne(f.start, f.inputs, WipeSlot(j));
  }

  /** Whoever holds a datagram of the session is its home worker. */
  lemma OwnLane(a: Pool, i: nat, sid: SessionId)
    requires LanesOk(a) && i < |a.lanes| && Holds(a.lanes[i].phase, sid)
    ensures i == ShardOf(sid[0], |a.lanes|) && InHand(a.lanes[i].phase)[0].s < TWO64
  {
    var l := a.lanes[i];
    assert l.submitted[|l.finished|] == InHand(l.phase)[0];
  }

  /** What a worker's step does to its lane when the session is not concerned. */
  ghost predicate OtherLane(l: Lane, k: Lane, sid: SessionId)
  {
    !Holds(l.phase, sid) &&
    if InHand(l.phase) == [] then k.finished == l.finished && !k.phase.Marked? && !k.phase.Storing? && (Holds(k.phase, sid) ==> k.phase.Taken?)
    else (k.finished == l.finished && InHand(k.phase) == InHand(l.phase)) || k == Finish(l, InHand(l.phase)[0])
  }

  lemma StepShape(a: Pool, action: Action)
    requires |a.lanes| > 0
    ensures |Step(a, action).lanes| == |a.lanes| && Step(a, action).flows.Keys == a.flows.Keys
  {
  }

  /** A step leaves a session's home lane alone, moves its own datagram on, or moves another. */
  ghost predicate Moves(l: Lane, k: Lane, f: Flow, g: Flow, sid: SessionId)
  {
    || (k.phase == l.phase && k.finished == l.finished && (g == f || exists j :: g == WipeFlow(f, j)))
    || (Holds(l.phase, sid) && InHand(l.phase)[0].s < TWO64 && k == LaneAfter(l, f) && g == FlowAfter(l.phase, f))
    || (g == f && OtherLane(l, k, sid))
  }

  /** The worker of lane i moves, lane i being the session's home. */
  lemma LaneMoves(a: Pool, i: nat, sid: SessionId)
    requires i < |a.lanes| && sid in a.flows && (Holds(a.lanes[i].phase, sid) ==> InHand(a.lanes[i].phase)[0].s < TWO64)
    ensures Moves(a.lanes[i], WorkerStep(a, i).lanes[i], a.flows[sid], NextFlow(a, Work(i), sid), sid)
  {
    var l := a.lanes[i];
    if l.phase.Idle? || l.phase.Exited? {
      assert WorkerStep(a, i).lanes[i] == if l.phase.Idle? then Fetch(l, a.closing) else l;
    } else if !Holds(l.phase, sid) {
      assert OtherLane(l, WorkerStep(a, i).lanes[i], sid);
    }
  }

  lemma HomeStep(a: Pool, action: Action, sid: SessionId)
    requires LanesOk(a) && sid in a.flows && |Step(a, action).lanes| == |a.lanes|
    ensures var i := ShardOf(sid[0], |a.lanes|);
            Moves(a.lanes[i], Step(a, action).lanes[i], a.flows[sid], NextFlow(a, action, sid), sid)
  {
    var i := ShardOf(sid[0], |a.lanes|);
    if action.Work? && action.i < |a.lanes| {
      if Holds(a.lanes[action.i].phase, sid) { OwnLane(a, action.i, sid); }
      if action.i == i { LaneMoves(a, i, sid); } else { assert Step(a, action).lanes[i] == a.lanes[i]; }
    } else {
      var l, k := a.lanes[i], Step(a, action).lanes[i];
      assert k.phase == l.phase && k.finished == l.finished;
    }
  }

  lemma MovesOk(l: Lane, k: Lane, f: Flow, g: Flow, sid: SessionId)
    requires Moves(l, k, f, g, sid) && FlowOk(l, f, sid)
    ensures FlowOk(k, g, sid)
  {
    if k.phase == l.phase && k.finished == l.finished && (g == f || exists j :: g == WipeFlow(f, j)) {
      if g != f {
        var j :| g == WipeFlow(f, j);
        WipeFlowOk(l, f, sid, j);
      }
    } else if Holds(l.phase, sid) {
      OwnFlowOk(l, f, sid);
    } else if InHand(l.phase) != [] {
      OtherFlowOk(l, k, f, sid);
    }
  }

  lemma StepFlowsOk(a: Pool, action: Action)
    requires LanesOk(a) && FlowsOk(a)
    ensures FlowsOk(Step(a, action))
  {
    var b, n := Step(a, action), |a.lanes|;
    StepShape(a, action);
    forall sid | sid in b.flows
      ensures FlowOk(b.lanes[ShardOf(sid[0], n)], b.flows[sid], sid)
    {
      var i := ShardOf(sid[0], n);
      FlowStep(a, action, sid);
      HomeStep(a, action, sid);
      MovesOk(a.lanes[i], b.lanes[i], a.flows[sid], b.flows[sid], sid);
    }
  }

  // ---------- Theorems over all runs ----------

  /** Shards joined so far have no worker and no jobs, and nothing is submitted any more. */
  ghost predicate JoinedOk(a: Pool)
  {
    a.joined <= |a.lanes| && (a.joined > 0 ==> a.closing) &&
    forall i :: 0 <= i < a.joined ==> a.lanes[i].phase.Exited? && a.lanes[i].queue == []
  }

  lemma StepJoinedOk(a: Pool, action: Action)
    requires LanesOk(a) && JoinedOk(a)
    ensures JoinedOk(Step(a, action))
  {
  }

  lemma InitialOk(a: Pool)
    requires Initial(a)
    ensures LanesOk(a) && FlowsOk(a) && JoinedOk(a)
  {
    forall sid | sid in a.flows
      ensures FlowOk(a.lanes[ShardOf(sid[0], |a.lanes|)], a.flows[sid], sid)
    {
    }
  }

  lemma {:induction false} RunOk(start: Pool, actions: seq<Action>)
    requires Initial(start) && start.sharded
    ensures var a := Run(start, actions); LanesOk(a) && FlowsOk(a) && JoinedOk(a)
  {
    if actions == [] {
      InitialOk(start);
    } else {
      var n := |actions| - 1;
      RunOk(start, actions[..n]);
      StepLanesOk(Run(start, actions[..n]), actions[n]);
      StepFlowsOk(Run(start, actions[..n]), actions[n]);
      StepJoinedOk(Run(start, actions[..n]), actions[n]);
    }
  }

  lemma {:induction false} RunKeeps(start: Pool, actions: seq<Action>, sid: SessionId)
    requires |start.lanes| > 0 && sid in start.flows
    ensures sid in Run(start, actions).flows && Run(start, actions).flows[sid].start == start.flows[sid].start
  {
    if actions != [] {
      var n := |actions| - 1;
      RunKeeps(start, actions[..n], sid);
      FlowStep(Run(start, actions[..n]), actions[n], sid);
    }
  }

  lemma LaneConserved(a: Pool, i: nat)
    requires LanesOk(a) && JoinedOk(a) && i < |a.lanes|
    ensures var l := a.lanes[i];
            l.submitted == l.finished + InHand(l.phase) + l.drained + l.queue && |l.queue| <= MAX_QUEUE &&
            (a.joined == |a.lanes| ==> l.submitted == l.finished + l.drained)
  {
    assert LaneOk(a.lanes[i], i, |a.lanes|);
  }

  /** Job conservation: in every reachable state each accepted job of a shard is finished, in
      its worker's hand, drained or waiting, once each and in submission order, with at most
      4096 waiting; when the last shard is joined every job was finished or drained. */
  lemma JobsConserved(start: Pool, actions: seq<Action>, i: nat)
    requires Initial(start) && start.sharded && i < |start.lanes|
    ensures var l := Run(start, actions).lanes[i];
            l.submitted == l.finished + InHand(l.phase) + l.drained + l.queue && |l.queue| <= 4096 &&
            (Run(start, actions).joined == |start.lanes| ==> l.submitted == l.finished + l.drained)
  {
    RunOk(start, actions);
    LaneConserved(Run(start, actions), i);
  }

  lemma {:induction false} NoneRouted(jobs: seq<Job>, sid: SessionId, i: nat, n: nat)
    requires n > 0 && Routed(jobs, i, n) && ShardOf(sid[0], n) != i
    ensures SessionInputs(jobs, sid) == []
  {
    if jobs != [] { NoneRouted(jobs[..|jobs| - 1], sid, i, n); }
  }

  ghost function Home(a: Pool, sid: SessionId): Lane
    requires |a.lanes| > 0
  {
    a.lanes[ShardOf(sid[0], |a.lanes|)]
  }

  lemma SessionFacts(a: Pool, sid: SessionId)
    requires LanesOk(a) && FlowsOk(a) && sid in a.flows
    ensures Home(a, sid).finished + InHand(Home(a, sid).phase) <= Home(a, sid).submitted
    ensures FlowOk(Home(a, sid), a.flows[sid], sid)
    ensures Holds(Home(a, sid).phase, sid) ==> InHand(Home(a, sid).phase)[0].s < TWO64
  {
    var l := Home(a, sid);
    if Holds(l.phase, sid) {
      assert l.submitted[|l.finished|] == InHand(l.phase)[0];
    }
  }

  /** No other shard is ever given a datagram of the session. */
  lemma OneShard(start: Pool, actions: seq<Action>, sid: SessionId, i: nat)
    requires Initial(start) && start.sharded && i < |start.lanes| && i != ShardOf(sid[0], |start.lanes|)
    ensures SessionInputs(Run(start, actions).lanes[i].submitted, sid) == []
  {
    RunOk(start, actions);
    NoneRouted(Run(start, actions).lanes[i].submitted, sid, i, |start.lanes|);
  }

  lemma AcceptedDistinct(l: Lane, f: Flow, sid: SessionId)
    requires FlowOk(l, f, sid) && (Holds(l.phase, sid) ==> InHand(l.phase)[0].s < TWO64)
    ensures Distinct(f.accepted)
    ensures l.phase.Marked? && Holds(l.phase, sid) ==> InHand(l.phase)[0].s !in Process(f.start, f.inputs).accepted
  {
    var tr := Process(f.start, f.inputs);
    NeverTwice(f.start, f.inputs);
    if l.phase.Marked? && Holds(l.phase, sid) {
      var s := InHand(l.phase)[0].s;
      AdvanceRepresents(tr.receiver.view, Elements(tr.accepted), s);
      ElementsAppend(tr.accepted, s);
    }
  }

  /** At most once: no interleaving ever accepts a sequence number of a session twice. */
  lemma AcceptedOnce(start: Pool, actions: seq<Action>, sid: SessionId)
    requires Initial(start) && start.sharded && sid in start.flows
    ensures sid in Run(start, actions).flows && Distinct(Run(start, actions).flows[sid].accepted)
  {
    RunOk(start, actions);
    RunKeeps(start, actions, sid);
    var a := Run(start, actions);
    SessionFacts(a, sid);
    AcceptedDistinct(Home(a, sid), a.flows[sid], sid);
  }

  // ---------- Runs in which no wipe hits the slot in use ----------

  /** The action, if it is a wipe of the session's table, spares the slot its worker is using. */
  ghost predicate Spares(a: Pool, action: Action, sid: SessionId)
  {
    action.WipeArmed? && a.armed.Some? && a.armed.value.sid == sid && sid in a.flows ==>
      !Hits(a.flows[sid].store, a.armed.value.j)
  }

  ghost predicate Clean(start: Pool, actions: seq<Action>, sid: SessionId)
    requires |start.lanes| > 0
  {
    actions == [] ||
    var n := |actions| - 1;
    Clean(start, actions[..n], sid) && Spares(Run(start, actions[..n]), actions[n], sid)
  }

  /** The worker's own steps: the find takes the whole datagram's effect, the rest catches up. */
  lemma OwnTableOk(l: Lane, f: Flow, sid: SessionId)
    requires FlowOk(l, f, sid) && Holds(l.phase, sid) && TableOk(f)
    ensures TableOk(FlowAfter(l.phase, f))
  {
    var j := InHand(l.phase)[0];
    ProcessOne(f.start, f.inputs, AsInput(j));
    FinishedSteps(f.store);
    if l.phase.Marked? {
      BeginFinishes(f.store, j.s, j.plain.value, j.now);
    }
  }

  lemma WipeTableOk(f: Flow, j: nat)
    requires TableOk(f) && !Hits(f.store, j)
    ensures TableOk(WipeFlow(f, j))
  {
    ProcessOne(f.start, f.inputs, WipeSlot(j));
    FinishedWipe(f.store, j);
  }

  lemma StepTableOk(a: Pool, action: Action, sid: SessionId)
    requires LanesOk(a) && sid in a.flows && FlowOk(Home(a, sid), a.flows[sid], sid)
    requires TableOk(a.flows[sid]) && Spares(a, action, sid)
    ensures TableOk(NextFlow(a, action, sid))
  {
    if action.Work? && action.i < |a.lanes| && Holds(a.lanes[action.i].phase, sid) {
      OwnLane(a, action.i, sid);
      OwnTableOk(a.lanes[action.i], a.flows[sid], sid);
    } else if action.WipeArmed? && a.armed.Some? && a.armed.value.sid == sid {
      WipeTableOk(a.flows[sid], a.armed.value.j);
    }
  }

  lemma {:induction false} CleanTable(start: Pool, actions: seq<Action>, sid: SessionId)
    requires Initial(start) && start.sharded && sid in start.flows && Clean(start, actions, sid)
    ensures sid in Run(start, actions).flows && TableOk(Run(start, actions).flows[sid])
  {
    if actions != [] {
      var n := |actions| - 1;
      CleanTable(start, actions[..n], sid);
      RunOk(start, actions[..n]);
      StepTableOk(Run(start, actions[..n]), actions[n], sid);
      FlowStep(Run(start, actions[..n]), actions[n], sid);
    }
  }

  /** Sharding: one worker handles a session and its datagrams take effect in submission order.
      Between two of them its window and accepted numbers are those of a single-threaded
      handler, and so are its table and TUN writes in every run where no wipe hits the slot in
      use between a find and the end of that frame's handling. */
  lemma HandledAsIfAlone(start: Pool, actions: seq<Action>, sid: SessionId)
    requires Initial(start) && start.sharded && sid in start.flows
    ensures sid in Run(start, actions).flows
    ensures var a := Run(start, actions);
            var l, f, tr := Home(a, sid), a.flows[sid], Process(start.flows[sid].start, a.flows[sid].inputs);
            l.finished <= l.submitted &&
            (!Holds(l.phase, sid) ==>
               Datagrams(f.inputs) == SessionInputs(l.finished, sid) &&
               f.view == tr.receiver.view && f.accepted == tr.accepted &&
               (Clean(start, actions, sid) ==> f.store == Store(tr.receiver.table, Resting, tr.writes)))
  {
    RunOk(start, actions);
    RunKeeps(start, actions, sid);
    var a := Run(start, actions);
    SessionFacts(a, sid);
    var l := Home(a, sid);
    if Clean(start, actions, sid) {
      CleanTable(start, actions, sid);
      FinishedSteps(a.flows[sid].store);
    }
    if l.phase.Storing? && !Holds(l.phase, sid) {
      FinishedOne(l.finished, l.phase.job, sid);
    }
  }

  // ---------- Writes, in every run without a harmful wipe ----------

  /** Only what the sender sealed under a number decrypts under that number. */
  ghost predicate AuthenticJobs(sent: seq<Packet>, wire: seq<Item>, jobs: seq<Job>, sid: SessionId)
    requires Stream(sent, wire)
  {
    forall k :: 0 <= k < |jobs| && jobs[k].Inbound? && jobs[k].sid == sid && jobs[k].plain.Some? ==>
      jobs[k].s < |wire| && jobs[k].plain.value == FrameAt(sent, wire, jobs[k].s)
  }

  /** For each id, the packet whose frame was accepted last under it. */
  ghost function OwnersIn(sent: seq<Packet>, wire: seq<Item>, accepted: seq<nat>): Safety.Owners
    requires Stream(sent, wire)
  {
    if accepted == [] then map[]
    else
      var n := |accepted| - 1;
      var before := OwnersIn(sent, wire, accepted[..n]);
      var s := accepted[n];
      if s < |wire| && wire[s].DataItem? then before[sent[wire[s].p].id := wire[s].p] else before
  }

  /** A worker about to find the slot for a data frame meets no entry left open by another
      packet of the same id. */
  ghost predicate FindsClear(sent: seq<Packet>, wire: seq<Item>, ph: Phase, f: Flow, sid: SessionId)
    requires Stream(sent, wire)
  {
    ph.Marked? && Holds(ph, sid) && ph.job.s < |wire| && wire[ph.job.s].DataItem? && f.accepted != [] ==>
      var p := wire[ph.job.s].p;
      Safety.Clear(f.store.table, OwnersIn(sent, wire, f.accepted[..|f.accepted| - 1]), sent[p].id, p)
  }

  /** The action does the session no harm: a find meets no other packet's entry, and a wipe does not land between the setting of a final frame's
      expected length and its write. */
  ghost predicate Harmless(sent: seq<Packet>, wire: seq<Item>, a: Pool, action: Action, sid: SessionId)
    requires Stream(sent, wire)
  {
    sid in a.flows ==>
      match action
      case Work(i) => i < |a.lanes| ==> FindsClear(sent, wire, a.lanes[i].phase, a.flows[sid], sid)
      case WipeArmed => a.armed.Some? && a.armed.value.sid == sid ==> !Harmful(a.flows[sid].store, a.armed.value.j)
      case _ => true
  }

  ghost predicate AllHarmless(sent: seq<Packet>, wire: seq<Item>, start: Pool, actions: seq<Action>, sid: SessionId)
    requires Stream(sent, wire) && |start.lanes| > 0
  {
    actions == [] ||
    var n := |actions| - 1;
    AllHarmless(sent, wire, start, actions[..n], sid) && Harmless(sent, wire, Run(start, actions[..n]), actions[n], sid)
  }

  /** Each write was made for an accepted number, none for two, and not yet for the one in work. */
  ghost predicate WritesFrom(accepted: seq<nat>, st: Store)
  {
    && (forall n :: 0 <= n < |st.writes| ==> st.writes[n].s in accepted)
    && (forall m, n :: 0 <= m < n < |st.writes| ==> st.writes[m].s != st.writes[n].s)
    && (!st.busy.Resting? ==> st.busy.s in accepted && forall n :: 0 <= n < |st.writes| ==> st.writes[n].s != st.busy.s)
  }

  /** The session's store is in order, for the numbers accepted and taken to the table. */
  ghost predicate FlowSound(sent: seq<Packet>, wire: seq<Item>, f: Flow)
    requires Stream(sent, wire)
  {
    var log := Process(f.start, f.inputs).accepted;
    && StoreOk(sent, wire, Done(wire, Elements(log)), OwnersIn(sent, wire, log), f.store)
    && AllSound(sent, wire, f.store.writes) && WritesFrom(log, f.store)
  }

  lemma NextWritesFrom(accepted: seq<nat>, st: Store)
    requires WritesFrom(accepted, st)
    ensures WritesFrom(accepted, Next(st))
  {
  }

  lemma OwnersOne(sent: seq<Packet>, wire: seq<Item>, accepted: seq<nat>, s: nat)
    requires Stream(sent, wire) && s < |wire|
    ensures OwnersIn(sent, wire, accepted + [s]) ==
            if wire[s].DataItem? then OwnersIn(sent, wire, accepted)[sent[wire[s].p].id := wire[s].p] else OwnersIn(sent, wire, accepted)
  {
    assert (accepted + [s])[..|accepted|] == accepted;
  }

  lemma {:induction false} BeginSound(sent: seq<Packet>, wire: seq<Item>, log: seq<nat>, st: Store, s: nat, now: int)
    requires Stream(sent, wire) && s < |wire| && s !in log && st.busy.Resting?
    requires StoreOk(sent, wire, Done(wire, Elements(log)), OwnersIn(sent, wire, log), st) && WritesFrom(log, st)
    requires wire[s].DataItem? ==> Safety.Clear(st.table, OwnersIn(sent, wire, log), sent[wire[s].p].id, wire[s].p)
    ensures var g := Begin(st, s, FrameAt(sent, wire, s), now);
            StoreOk(sent, wire, Done(wire, Elements(log + [s])), OwnersIn(sent, wire, log + [s]), g) && WritesFrom(log + [s], g)
  {
    FrameKind(sent, wire, s);
    DoneGrows(sent, wire, Elements(log), s);
    ElementsAppend(log, s);
    OwnersOne(sent, wire, log, s);
    if wire[s].DataItem? {
      BeginOk(sent, wire, Done(wire, Elements(log)), OwnersIn(sent, wire, log), st, s, now);
    }
  }

  /** What the worker holds after marking a number: it is new, it is the last accepted, and handling its frame begins in a resting store. */
  lemma {:induction false} MarkedFacts(sent: seq<Packet>, wire: seq<Item>, l: Lane, f: Flow, sid: SessionId)
    requires Stream(sent, wire) && FlowOk(l, f, sid) && Holds(l.phase, sid) && l.phase.Marked?
    requires InHand(l.phase)[0].s < TWO64 && AuthenticJobs(sent, wire, InHand(l.phase), sid)
    ensures var j, log, g := l.phase.job, Process(f.start, f.inputs).accepted, FlowAfter(l.phase, f);
            j.s < |wire| && j.s !in log && f.accepted == log + [j.s] && f.store.busy.Resting? &&
            g.store == Begin(f.store, j.s, FrameAt(sent, wire, j.s), j.now) && Process(g.start, g.inputs).accepted == log + [j.s]
  {
    var j := l.phase.job;
    ProcessOne(f.start, f.inputs, AsInput(j));
    AcceptedDistinct(l, f, sid);
    assert InHand(l.phase)[0] == j;
  }

  lemma {:induction false} MarkedSound(sent: seq<Packet>, wire: seq<Item>, l: Lane, f: Flow, sid: SessionId)
    requires Stream(sent, wire) && FlowOk(l, f, sid) && FlowSound(sent, wire, f) && Holds(l.phase, sid) && l.phase.Marked?
    requires InHand(l.phase)[0].s < TWO64 && AuthenticJobs(sent, wire, InHand(l.phase), sid)
    requires FindsClear(sent, wire, l.phase, f, sid)
    ensures FlowSound(sent, wire, FlowAfter(l.phase, f))
  {
    var j, log := l.phase.job, Process(f.start, f.inputs).accepted;
    MarkedFacts(sent, wire, l, f, sid);
    assert f.accepted[..|f.accepted| - 1] == log;
    BeginSound(sent, wire, log, f.store, j.s, j.now);
    assert Begin(f.store, j.s, FrameAt(sent, wire, j.s), j.now).writes == f.store.writes;
  }

  lemma {:induction false} OwnSound(sent: seq<Packet>, wire: seq<Item>, l: Lane, f: Flow, sid: SessionId)
    requires Stream(sent, wire) && FlowOk(l, f, sid) && FlowSound(sent, wire, f) && Holds(l.phase, sid)
    requires InHand(l.phase)[0].s < TWO64 && AuthenticJobs(sent, wire, InHand(l.phase), sid)
    requires FindsClear(sent, wire, l.phase, f, sid)
    ensures FlowSound(sent, wire, FlowAfter(l.phase, f))
  {
    var log := Process(f.start, f.inputs).accepted;
    if l.phase.Marked? {
      MarkedSound(sent, wire, l, f, sid);
    } else if l.phase.Storing? {
      NextOk(sent, wire, Done(wire, Elements(log)), OwnersIn(sent, wire, log), f.store);
      NextWritesFrom(log, f.store);
    } else {
      ProcessOne(f.start, f.inputs, AsInput(InHand(l.phase)[0]));
    }
  }

  lemma {:induction false} WipeFlowSound(sent: seq<Packet>, wire: seq<Item>, f: Flow, j: nat)
    requires Stream(sent, wire) && FlowSound(sent, wire, f) && !Harmful(f.store, j)
    ensures FlowSound(sent, wire, WipeFlow(f, j))
  {
    var log := Process(f.start, f.inputs).accepted;
    ProcessOne(f.start, f.inputs, WipeSlot(j));
    WipeOk(sent, wire, Done(wire, Elements(log)), OwnersIn(sent, wire, log), f.store, j);
  }

  lemma {:induction false} WorkSound(sent: seq<Packet>, wire: seq<Item>, a: Pool, i: nat, sid: SessionId)
    requires Stream(sent, wire) && LanesOk(a) && i < |a.lanes| && Holds(a.lanes[i].phase, sid)
    requires sid in a.flows && FlowOk(Home(a, sid), a.flows[sid], sid) && FlowSound(sent, wire, a.flows[sid])
    requires AuthenticJobs(sent, wire, Home(a, sid).submitted, sid) && Harmless(sent, wire, a, Work(i), sid)
    ensures FlowSound(sent, wire, FlowAfter(a.lanes[i].phase, a.flows[sid]))
  {
    var l := a.lanes[i];
    OwnLane(a, i, sid);
    assert l.submitted[|l.finished|] == InHand(l.phase)[0];
    OwnSound(sent, wire, l, a.flows[sid], sid);
  }

  lemma {:induction false} StepSound(sent: seq<Packet>, wire: seq<Item>, a: Pool, action: Action, sid: SessionId)
    requires Stream(sent, wire) && LanesOk(a) && sid in a.flows && FlowSound(sent, wire, a.flows[sid])
    requires FlowOk(Home(a, sid), a.flows[sid], sid)
    requires AuthenticJobs(sent, wire, Home(a, sid).submitted, sid) && Harmless(sent, wire, a, action, sid)
    ensures FlowSound(sent, wire, NextFlow(a, action, sid))
  {
    if action.Work? && action.i < |a.lanes| && Holds(a.lanes[action.i].phase, sid) {
      WorkSound(sent, wire, a, action.i, sid);
    } else if action.WipeArmed? && a.armed.Some? && a.armed.value.sid == sid {
      WipeFlowSound(sent, wire, a.flows[sid], a.armed.value.j);
    }
  }

  lemma WorkSubmits(a: Pool, k: nat, i: nat)
    requires k < |a.lanes| && i < |a.lanes|
    ensures |WorkerStep(a, k).lanes| == |a.lanes| && WorkerStep(a, k).lanes[i].submitted == a.lanes[i].submitted
  {
  }

  lemma SubmittedGrows(a: Pool, action: Action, i: nat)
    requires |a.lanes| > 0 && i < |a.lanes|
    ensures |Step(a, action).lanes| == |a.lanes| && a.lanes[i].submitted <= Step(a, action).lanes[i].submitted
  {
    match action {
      case Work(k) => if k < |a.lanes| { WorkSubmits(a, k, i); }
      case _ =>
    }
  }

  lemma {:induction false} HarmlessSound(sent: seq<Packet>, wire: seq<Item>, start: Pool, actions: seq<Action>, sid: SessionId)
    requires Stream(sent, wire) && Initial(start) && start.sharded && sid in start.flows
    requires AuthenticJobs(sent, wire, Home(Run(start, actions), sid).submitted, sid)
    requires AllHarmless(sent, wire, start, actions, sid)
    ensures sid in Run(start, actions).flows && FlowSound(sent, wire, Run(start, actions).flows[sid])
  {
    if actions == [] {
      assert NewFlow(start.flows[sid]);
      assert Done(wire, Elements([])) == {};
    } else {
      var n := |actions| - 1;
      var a := Run(start, actions[..n]);
      SubmittedGrows(a, actions[n], ShardOf(sid[0], |a.lanes|));
      assert forall k :: 0 <= k < |Home(a, sid).submitted| ==>
          Home(a, sid).submitted[k] == Home(Run(start, actions), sid).submitted[k];
      HarmlessSound(sent, wire, start, actions[..n], sid);
      RunOk(start, actions[..n]);
      StepSound(sent, wire, a, actions[n], sid);
      FlowStep(a, actions[n], sid);
    }
  }

  /** Under any interleaving without a harmful wipe everything a session writes to TUN is a
      packet its sender cut, and no packet is written twice. */
  lemma PoolWritesSound(sent: seq<Packet>, wire: seq<Item>, start: Pool, actions: seq<Action>, sid: SessionId)
    requires Stream(sent, wire) && Initial(start) && start.sharded && sid in start.flows
    requires AuthenticJobs(sent, wire, Home(Run(start, actions), sid).submitted, sid)
    requires AllHarmless(sent, wire, start, actions, sid)
    ensures sid in Run(start, actions).flows
    ensures OnlySent(sent, wire, Run(start, actions).flows[sid].store.writes)
  {
    HarmlessSound(sent, wire, start, actions, sid);
  }
}
