/** Reused packet ids in the worker pool: a find meets another packet's entry exactly when the
    id was not released since its last find. */
module PoolRelease {
  import opened Words
  import opened Frames
  import opened Fragments
  import opened Reassembly
  import opened DataPath
  import opened StoreSteps
  import opened WorkerPool
  import Safety = ReassemblySafety

  /** The action is the find of a data frame of the session under the id. */
  predicate Finds(a: Pool, action: Action, sid: SessionId, id: nat)
  {
    action.Work? && action.i < |a.lanes| &&
    var ph := a.lanes[action.i].phase;
    ph.Marked? && WorkerPool.Holds(ph, sid) && ph.job.plain.Some? && !IsControl(ph.job.plain.value) && ph.job.plain.value.header.packetId == id
  }

  /** The action closes the slot open for the id: the worker writes its packet out or refuses a
      frame that does not fit, or the sweep's wipe lands on it. */
  predicate Closes(a: Pool, action: Action, sid: SessionId, id: nat)
    requires sid in a.flows
  {
    var st := a.flows[sid].store;
    match action
    case Work(i) =>
      i < |a.lanes| && a.lanes[i].phase.Storing? && WorkerPool.Holds(a.lanes[i].phase, sid) &&
      (st.busy.Sending? || (st.busy.Found? && !Fits(st.busy.f))) && st.busy.j < |st.table| && Reassembly.Holds(st.table[st.busy.j], id)
    case WipeArmed =>
      a.armed.Some? && a.armed.value.sid == sid && a.armed.value.j < |st.table| && Reassembly.Holds(st.table[a.armed.value.j], id)
    case _ => false
  }

  /** The id was not left open from before, or has been released since the last find under it:
      that find got no slot, or the slot was closed. */
  ghost predicate FreeAgain(start: Pool, actions: seq<Action>, sid: SessionId, id: nat)
    requires |start.lanes| > 0
  {
    if actions == [] then sid in start.flows && Safety.Vacant(start.flows[sid].start.table, id)
    else
      var n := |actions| - 1;
      var a := Run(start, actions[..n]);
      sid in a.flows &&
      if Finds(a, actions[n], sid, id) then SlotFor(a.flows[sid].store.table, id) == |a.flows[sid].store.table|
      else FreeAgain(start, actions[..n], sid, id) || Closes(a, actions[n], sid, id)
  }

  lemma BeginSlots(st: Store, s: nat, f: Frame, now: int, id: nat)
    requires Safety.Unique(st.table)
    ensures var u := Begin(st, s, f, now).table;
            Safety.Unique(u) && |u| == |st.table| &&
            (Safety.Vacant(u, id) <==> if !IsControl(f) && f.header.packetId == id then SlotFor(st.table, id) == |st.table| else Safety.Vacant(st.table, id))
  {
    var t, j := st.table, SlotFor(st.table, f.header.packetId);
    forall k | 0 <= k < |t| && Reassembly.Holds(t[k], f.header.packetId)
      ensures k == j
    {
      Safety.FirstIsOnly(t, f.header.packetId, k);
    }
    var u := Begin(st, s, f, now).table;
    if !IsControl(f) && j < |t| {
      assert u[j].active && u[j].id == f.header.packetId;
      assert forall k :: 0 <= k < |t| && k != j ==> u[k] == t[k];
      assert !Reassembly.Holds(t[j], id) || f.header.packetId == id;
    }
  }

  lemma NextSlots(st: Store, id: nat)
    requires Safety.Unique(st.table)
    ensures var u := Next(st).table;
            Safety.Unique(u) && |u| == |st.table| &&
            (Safety.Vacant(u, id) <==>
               Safety.Vacant(st.table, id) ||
               ((st.busy.Sending? || (st.busy.Found? && !Fits(st.busy.f))) && st.busy.j < |st.table| && Reassembly.Holds(st.table[st.busy.j], id)))
  {
    var t, u := st.table, Next(st).table;
    if !st.busy.Resting? && st.busy.j < |t| {
      var j := st.busy.j;
      assert forall k :: 0 <= k < |t| && k != j ==> u[k] == t[k];
      assert u[j].id == t[j].id;
      if Reassembly.Holds(t[j], id) {
        assert forall k :: 0 <= k < |t| && k != j ==> !Reassembly.Holds(t[k], id);
      }
    }
  }

  lemma WipeSlots(t: seq<Entry>, j: nat, id: nat)
    requires Safety.Unique(t)
    ensures Safety.Unique(Wipe(t, j)) && (Safety.Vacant(Wipe(t, j), id) <==> Safety.Vacant(t, id) || (j < |t| && Reassembly.Holds(t[j], id)))
  {
    if !Safety.Vacant(t, id) {
      var k :| 0 <= k < |t| && Reassembly.Holds(t[k], id);
      assert Reassembly.Holds(Wipe(t, j)[k], id) || Wipe(t, j)[k] == EMPTY;
    }
  }

  lemma StepSlots(a: Pool, action: Action, sid: SessionId, id: nat)
    requires |a.lanes| > 0 && sid in a.flows && Safety.Unique(a.flows[sid].store.table)
    ensures var t, u := a.flows[sid].store.table, NextFlow(a, action, sid).store.table;
            Safety.Unique(u) && |u| == |t| &&
            (Safety.Vacant(u, id) <==> if Finds(a, action, sid, id) then SlotFor(t, id) == |t| else Safety.Vacant(t, id) || Closes(a, action, sid, id))
  {
    var f := a.flows[sid];
    if action.Work? && action.i < |a.lanes| && WorkerPool.Holds(a.lanes[action.i].phase, sid) {
      var ph := a.lanes[action.i].phase;
      if ph.Marked? && ph.job.plain.Some? {
        BeginSlots(f.store, ph.job.s, ph.job.plain.value, ph.job.now, id);
      } else if ph.Storing? {
        NextSlots(f.store, id);
      }
    } else if action.WipeArmed? && a.armed.Some? && a.armed.value.sid == sid {
      WipeSlots(f.store.table, a.armed.value.j, id);
    }
  }

  /** In every run of the pool an id is free again exactly when no slot is open for it. */
  lemma {:induction false} FreeAgainIff(start: Pool, actions: seq<Action>, sid: SessionId, id: nat)
    requires Initial(start) && sid in start.flows
    ensures sid in Run(start, actions).flows
    ensures var t := Run(start, actions).flows[sid].store.table;
            Safety.Unique(t) && (FreeAgain(start, actions, sid, id) <==> Safety.Vacant(t, id))
  {
    if actions == [] {
      assert NewFlow(start.flows[sid]);
    } else {
      var n := |actions| - 1;
      FreeAgainIff(start, actions[..n], sid, id);
      FlowStep(Run(start, actions[..n]), actions[n], sid);
      StepSlots(Run(start, actions[..n]), actions[n], sid, id);
    }
  }

  /** A worker about to find the slot for a data frame whose id was not last used by the same
      packet does so only after the id was released. */
  ghost predicate FindsReleased(sent: seq<Packet>, wire: seq<Item>, start: Pool, actions: seq<Action>, ph: Phase, f: Flow, sid: SessionId)
    requires Stream(sent, wire) && |start.lanes| > 0
  {
    ph.Marked? && WorkerPool.Holds(ph, sid) && ph.job.s < |wire| && wire[ph.job.s].DataItem? && f.accepted != [] ==>
      var p, own := wire[ph.job.s].p, OwnersIn(sent, wire, f.accepted[..|f.accepted| - 1]);
      !(sent[p].id in own && own[sent[p].id] == p) ==> FreeAgain(start, actions, sid, sent[p].id)
  }

  /** No wipe of the run does the session harm. */
  ghost predicate WipesSpare(start: Pool, actions: seq<Action>, sid: SessionId)
    requires |start.lanes| > 0
  {
    actions == [] ||
    var n := |actions| - 1;
    var a := Run(start, actions[..n]);
    WipesSpare(start, actions[..n], sid) &&
    (actions[n].WipeArmed? && sid in a.flows && a.armed.Some? && a.armed.value.sid == sid ==> !Harmful(a.flows[sid].store, a.armed.value.j))
  }

  /** Every find of the run comes after its id was released. */
  ghost predicate AllReleased(sent: seq<Packet>, wire: seq<Item>, start: Pool, actions: seq<Action>, sid: SessionId)
    requires Stream(sent, wire) && |start.lanes| > 0
  {
    actions == [] ||
    var n := |actions| - 1;
    var a := Run(start, actions[..n]);
    AllReleased(sent, wire, start, actions[..n], sid) &&
    (actions[n].Work? && sid in a.flows && actions[n].i < |a.lanes| ==>
       FindsReleased(sent, wire, start, actions[..n], a.lanes[actions[n].i].phase, a.flows[sid], sid))
  }

  /** In the pool, as in a single thread, runs are harmless exactly when ids are released before
      another packet uses them, also those left open by an earlier session, and no wipe does
      harm. */
  lemma {:induction false} HarmlessIff(sent: seq<Packet>, wire: seq<Item>, start: Pool, actions: seq<Action>, sid: SessionId)
    requires Stream(sent, wire) && Initial(start) && sid in start.flows
    ensures AllHarmless(sent, wire, start, actions, sid) <==>
            AllReleased(sent, wire, start, actions, sid) && WipesSpare(start, actions, sid)
  {
    if actions != [] {
      var n := |actions| - 1;
      var a := Run(start, actions[..n]);
      HarmlessIff(sent, wire, start, actions[..n], sid);
      if actions[n].Work? && actions[n].i < |a.lanes| {
        forall id
          ensures sid in a.flows && (FreeAgain(start, actions[..n], sid, id) <==> Safety.Vacant(a.flows[sid].store.table, id))
        {
          FreeAgainIff(start, actions[..n], sid, id);
        }
      }
    }
  }

  // ---------- Distinct ids ----------

  /** Every open entry's id is among the owned ones, or was open in the table before. */
  ghost predicate Covered(t: seq<Entry>, own: Safety.Owners, before: seq<Entry>)
  {
    forall j :: 0 <= j < |t| && t[j].active && t[j].id !in own ==> !Safety.Vacant(before, t[j].id)
  }

  /** Every open entry's id was accepted in this run, or left open from before. */
  ghost predicate OpenOk(sent: seq<Packet>, wire: seq<Item>, f: Flow)
    requires Stream(sent, wire)
  {
    Covered(f.store.table, OwnersIn(sent, wire, Process(f.start, f.inputs).accepted), f.start.table)
  }

  lemma BeginCovered(st: Store, s: nat, f: Frame, now: int, own: Safety.Owners, more: Safety.Owners, before: seq<Entry>)
    requires Covered(st.table, own, before) && own.Keys <= more.Keys && (!IsControl(f) ==> f.header.packetId in more)
    ensures Covered(Begin(st, s, f, now).table, more, before)
  {
  }

  lemma NextCovered(st: Store, own: Safety.Owners, before: seq<Entry>)
    requires Covered(st.table, own, before)
    ensures Covered(Next(st).table, own, before)
  {
  }

  lemma {:induction false} OwnersReal(sent: seq<Packet>, wire: seq<Item>, log: seq<nat>, id: nat)
    requires Stream(sent, wire)
    ensures var own := OwnersIn(sent, wire, log); id in own ==> own[id] < |sent| && sent[own[id]].id == id
  {
    if log != [] { OwnersReal(sent, wire, log[..|log| - 1], id); }
  }

  lemma MarkedOpenOk(sent: seq<Packet>, wire: seq<Item>, l: Lane, f: Flow, sid: SessionId)
    requires Stream(sent, wire) && FlowOk(l, f, sid) && OpenOk(sent, wire, f) && WorkerPool.Holds(l.phase, sid) && l.phase.Marked?
    requires AuthenticJobs(sent, wire, InHand(l.phase), sid)
    ensures OpenOk(sent, wire, FlowAfter(l.phase, f))
  {
    var j, log := l.phase.job, Process(f.start, f.inputs).accepted;
    ProcessOne(f.start, f.inputs, AsInput(j));
    assert InHand(l.phase)[0] == j;
    OwnersOne(sent, wire, log, j.s);
    FrameKind(sent, wire, j.s);
    BeginCovered(f.store, j.s, j.plain.value, j.now, OwnersIn(sent, wire, log), OwnersIn(sent, wire, log + [j.s]), f.start.table);
  }

  lemma OwnOpenOk(sent: seq<Packet>, wire: seq<Item>, l: Lane, f: Flow, sid: SessionId)
    requires Stream(sent, wire) && FlowOk(l, f, sid) && OpenOk(sent, wire, f) && WorkerPool.Holds(l.phase, sid)
    requires AuthenticJobs(sent, wire, InHand(l.phase), sid)
    ensures OpenOk(sent, wire, FlowAfter(l.phase, f))
  {
    if l.phase.Marked? {
      MarkedOpenOk(sent, wire, l, f, sid);
    } else if l.phase.Storing? {
      NextCovered(f.store, OwnersIn(sent, wire, Process(f.start, f.inputs).accepted), f.start.table);
    } else {
      ProcessOne(f.start, f.inputs, AsInput(InHand(l.phase)[0]));
    }
  }

  lemma WipeOpenOk(sent: seq<Packet>, wire: seq<Item>, f: Flow, j: nat)
    requires Stream(sent, wire) && OpenOk(sent, wire, f)
    ensures OpenOk(sent, wire, WipeFlow(f, j))
  {
    ProcessOne(f.start, f.inputs, WipeSlot(j));
  }

  lemma StepOpenOk(sent: seq<Packet>, wire: seq<Item>, a: Pool, action: Action, sid: SessionId)
    requires Stream(sent, wire) && LanesOk(a) && sid in a.flows && FlowOk(Home(a, sid), a.flows[sid], sid)
    requires OpenOk(sent, wire, a.flows[sid]) && AuthenticJobs(sent, wire, Home(a, sid).submitted, sid)
    ensures OpenOk(sent, wire, NextFlow(a, action, sid))
  {
    if action.Work? && action.i < |a.lanes| && WorkerPool.Holds(a.lanes[action.i].phase, sid) {
      var l := a.lanes[action.i];
      OwnLane(a, action.i, sid);
      assert l.submitted[|l.finished|] == InHand(l.phase)[0];
      OwnOpenOk(sent, wire, l, a.flows[sid], sid);
    } else if action.WipeArmed? && a.armed.Some? && a.armed.value.sid == sid {
      WipeOpenOk(sent, wire, a.flows[sid], a.armed.value.j);
    }
  }

  lemma {:induction false} RunOpenOk(sent: seq<Packet>, wire: seq<Item>, start: Pool, actions: seq<Action>, sid: SessionId)
    requires Stream(sent, wire) && Initial(start) && start.sharded && sid in start.flows
    requires AuthenticJobs(sent, wire, Home(Run(start, actions), sid).submitted, sid)
    ensures sid in Run(start, actions).flows && OpenOk(sent, wire, Run(start, actions).flows[sid])
  {
    if actions == [] {
      assert NewFlow(start.flows[sid]);
    } else {
      var n := |actions| - 1;
      var a := Run(start, actions[..n]);
      HomeGrows(start, actions, sid);
      AuthenticPrefix(sent, wire, Home(a, sid).submitted, Home(Run(start, actions), sid).submitted, sid);
      RunOpenOk(sent, wire, start, actions[..n], sid);
      RunOk(start, actions[..n]);
      SessionFacts(a, sid);
      StepOpenOk(sent, wire, a, actions[n], sid);
      FlowStep(a, actions[n], sid);
    }
  }

  lemma AuthenticPrefix(sent: seq<Packet>, wire: seq<Item>, jobs: seq<Job>, more: seq<Job>, sid: SessionId)
    requires Stream(sent, wire) && AuthenticJobs(sent, wire, more, sid) && jobs <= more
    ensures AuthenticJobs(sent, wire, jobs, sid)
  {
    assert forall k :: 0 <= k < |jobs| ==> jobs[k] == more[k];
  }

  lemma {:induction false} HomeGrows(start: Pool, actions: seq<Action>, sid: SessionId)
    requires |start.lanes| > 0 && actions != []
    ensures Home(Run(start, actions[..|actions| - 1]), sid).submitted <= Home(Run(start, actions), sid).submitted
  {
    var a := Run(start, actions[..|actions| - 1]);
    SubmittedGrows(a, actions[|actions| - 1], ShardOf(sid[0], |a.lanes|));
  }

  lemma ApartFinds(sent: seq<Packet>, wire: seq<Item>, l: Lane, f: Flow, sid: SessionId)
    requires Stream(sent, wire) && FlowOk(l, f, sid) && OpenOk(sent, wire, f)
    requires Safety.IdsApart(sent) && Safety.NoneLeft(sent, f.start.table)
    ensures FindsClear(sent, wire, l.phase, f, sid)
  {
    if l.phase.Marked? && WorkerPool.Holds(l.phase, sid) && l.phase.job.s < |wire| && wire[l.phase.job.s].DataItem? {
      var log := Process(f.start, f.inputs).accepted;
      assert f.accepted[..|f.accepted| - 1] == log;
      OwnersReal(sent, wire, log, sent[wire[l.phase.job.s].p].id);
    }
  }

  /** With ids all different and none of them left open by an earlier session, only a harmful
      wipe can do harm. */
  lemma {:induction false} ApartHarmless(sent: seq<Packet>, wire: seq<Item>, start: Pool, actions: seq<Action>, sid: SessionId)
    requires Stream(sent, wire) && Initial(start) && start.sharded && sid in start.flows
    requires AuthenticJobs(sent, wire, Home(Run(start, actions), sid).submitted, sid)
    requires Safety.IdsApart(sent) && Safety.NoneLeft(sent, start.flows[sid].start.table) && WipesSpare(start, actions, sid)
    ensures AllHarmless(sent, wire, start, actions, sid)
  {
    if actions != [] {
      var n := |actions| - 1;
      var a := Run(start, actions[..n]);
      HomeGrows(start, actions, sid);
      AuthenticPrefix(sent, wire, Home(a, sid).submitted, Home(Run(start, actions), sid).submitted, sid);
      ApartHarmless(sent, wire, start, actions[..n], sid);
      if actions[n].Work? && actions[n].i < |a.lanes| && WorkerPool.Holds(a.lanes[actions[n].i].phase, sid) {
        RunOpenOk(sent, wire, start, actions[..n], sid);
        RunKeeps(start, actions[..n], sid);
        RunOk(start, actions[..n]);
        OwnLane(a, actions[n].i, sid);
        SessionFacts(a, sid);
        ApartFinds(sent, wire, a.lanes[actions[n].i], a.flows[sid], sid);
      }
    }
  }
}
