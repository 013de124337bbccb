/** When packet ids repeat: exactly when no fragment is put into another packet's entry. */
module IdReuse {
  import opened Frames
  import opened Fragments
  import opened Reassembly
  import opened ReassemblySafety

  /** When the slot open for the id was last touched, if there is one. */
  ghost function Touched(t: seq<Entry>, id: nat): int
  {
    if FirstHolding(t, id) < |t| then t[FirstHolding(t, id)].lastActivity else 0
  }

  /** When the last delivery under the id was made; before any, when the entry left open under
      it was last touched. */
  ghost function LastUnder(sent: seq<Packet>, events: seq<Event>, t: seq<Entry>, id: nat): int
    requires Honest(sent) && Admissible(sent, events)
  {
    if events == [] then Touched(t, id)
    else
      var n := |events| - 1;
      if events[n].Deliver? && sent[events[n].p].id == id then events[n].now else LastUnder(sent, events[..n], t, id)
  }

  /** The id was not left open from before, or has been released since the last delivery under
      it: that delivery completed its packet, or found the table full, or a sweep came more than
      20 seconds after it, or its slot was wiped. */
  ghost predicate Released(sent: seq<Packet>, events: seq<Event>, t: seq<Entry>, id: nat)
    requires Honest(sent) && Admissible(sent, events)
  {
    if events == [] then Vacant(t, id)
    else
      var n := |events| - 1;
      var u := Run(sent, events[..n], t).0;
      match events[n]
      case Deliver(p, i, now) =>
        if sent[p].id == id then SlotFor(u, id) == |u| || Receive(u, FrameOf(sent, p, i), now).1.Some?
        else Released(sent, events[..n], t, id)
      case SweepAt(now) => Released(sent, events[..n], t, id) || now - LastUnder(sent, events[..n], t, id) > REASSEMBLY_TIMEOUT
      case WipeAt(j) => Released(sent, events[..n], t, id) || (j < |u| && Holds(u[j], id))
  }

  /** Every delivery that does not follow one of the same packet under its id finds the id
      released, also by an earlier session. */
  ghost predicate Separated(sent: seq<Packet>, events: seq<Event>, t: seq<Entry>)
    requires Honest(sent) && Admissible(sent, events)
  {
    events == [] ||
    var n := |events| - 1;
    Separated(sent, events[..n], t) &&
    (events[n].Deliver? ==>
       var own, id := OwnersOf(sent, events[..n]), sent[events[n].p].id;
       !(id in own && own[id] == events[n].p) ==> Released(sent, events[..n], t, id))
  }

  /** A frame under the id leaves it vacant if it got no slot or completed its packet. */
  lemma OwnDelivery(sent: seq<Packet>, t: seq<Entry>, p: nat, i: nat, now: int)
    requires Honest(sent) && IsFrame(sent, p, i) && Unique(t)
    ensures var id, r := sent[p].id, Receive(t, FrameOf(sent, p, i), now);
            Vacant(r.0, id) <==> SlotFor(t, id) == |t| || r.1.Some?
  {
    var id, f := sent[p].id, FrameOf(sent, p, i);
    var j := SlotFor(t, id);
    FragmentFits(sent[p], i);
    ReceiveSlots(t, f, now);
    if j < |t| {
      var r := Receive(t, f, now);
      assert r.1.None? ==> Holds(r.0[j], id);
    } else {
      assert FirstHolding(t, id) == |t|;
    }
  }

  /** A frame under another id leaves it as it is. */
  lemma OtherDelivery(t: seq<Entry>, f: Frame, now: int, id: nat)
    requires Unique(t) && f.header.packetId != id
    ensures forall j :: 0 <= j < |t| && (Holds(t[j], id) || Holds(Receive(t, f, now).0[j], id)) ==> Receive(t, f, now).0[j] == t[j]
  {
    ReceiveSlots(t, f, now);
  }

  /** In every run: an id is released exactly when no slot is open for it; an open one was last
      touched by the last delivery under its id. */
  lemma {:induction false} ReleasedIff(sent: seq<Packet>, events: seq<Event>, t: seq<Entry>, id: nat)
    requires Honest(sent) && Admissible(sent, events) && Unique(t)
    ensures var u := Run(sent, events, t).0;
            Unique(u) && (Released(sent, events, t, id) <==> Vacant(u, id)) &&
            (forall j :: 0 <= j < |u| && Holds(u[j], id) ==> u[j].lastActivity == LastUnder(sent, events, t, id))
  {
    RunUnique(sent, events, t);
    if events == [] {
      forall j | 0 <= j < |t| && Holds(t[j], id)
        ensures FirstHolding(t, id) == j
      {
        FirstIsOnly(t, id, j);
      }
    } else {
      var n := |events| - 1;
      var e := events[n];
      ReleasedIff(sent, events[..n], t, id);
      var u := Run(sent, events[..n], t).0;
      if e.Deliver? {
        var f := FrameOf(sent, e.p, e.i);
        ReceiveSlots(u, f, e.now);
        if sent[e.p].id == id { OwnDelivery(sent, u, e.p, e.i, e.now); } else { OtherDelivery(u, f, e.now, id); }
      } else {
        QuietIff(u, Run(sent, events, t).0, e, id, LastUnder(sent, events[..n], t, id));
      }
    }
  }

  lemma QuietIff(t: seq<Entry>, u: seq<Entry>, e: Event, id: nat, last: int)
    requires Unique(t) && forall j :: 0 <= j < |t| && Holds(t[j], id) ==> t[j].lastActivity == last
    requires match e case SweepAt(now) => u == Sweep(t, now) case WipeAt(j) => u == Wipe(t, j) case Deliver(_, _, _) => false
    ensures |u| == |t| && forall j :: 0 <= j < |t| && Holds(u[j], id) ==> u[j] == t[j]
    ensures e.SweepAt? ==> (Vacant(u, id) <==> Vacant(t, id) || e.now - last > REASSEMBLY_TIMEOUT)
    ensures e.WipeAt? ==> (Vacant(u, id) <==> Vacant(t, id) || (e.j < |t| && Holds(t[e.j], id)))
  {
    if !Vacant(t, id) {
      var k :| 0 <= k < |t| && Holds(t[k], id);
      assert Holds(u[k], id) || u[k] == EMPTY;
    }
  }

  /** The exact condition: over every run, from whatever table an earlier session left, no
      fragment is put into another packet's entry if and only if each id was released before
      another packet's fragments arrived under it. */
  lemma {:induction false} MixingIff(sent: seq<Packet>, events: seq<Event>, t: seq<Entry>)
    requires Honest(sent) && Admissible(sent, events) && Unique(t)
    ensures NoMixing(sent, events, t) <==> Separated(sent, events, t)
  {
    if events != [] {
      var n := |events| - 1;
      MixingIff(sent, events[..n], t);
      if events[n].Deliver? {
        ReleasedIff(sent, events[..n], t, sent[events[n].p].id);
      }
    }
  }

  /** Safety with ids reused: everything written is a packet that was sent, none twice, as long
      as each id is released before another packet's fragments arrive under it. */
  lemma ReuseSound(sent: seq<Packet>, events: seq<Event>, t: seq<Entry>)
    requires Honest(sent) && Admissible(sent, events) && Separated(sent, events, t) && Unique(t)
    ensures WritesSound(sent, Delivered(events), Run(sent, events, t).1)
  {
    MixingIff(sent, events, t);
    RunSound(sent, events, t);
  }

  // ---------- What mixing does ----------

  lemma HalfFrames(p: Packet)
    requires Sendable(p) && !p.padded && |p.bytes| == 2 * p.room
    ensures Count(p) == 2
    ensures Fragment(p, 0).header == Header(p.id, 0, |p.bytes|, FLAG_MORE) && Fragment(p, 0).payload == p.bytes[..p.room]
    ensures Fragment(p, 1).header == Header(p.id, p.room, |p.bytes|, FLAG_FINAL) && Fragment(p, 1).payload == p.bytes[p.room..]
  {
    assert 0 * p.room == 0 && 1 * p.room == p.room;
    Tiling(|p.bytes|, p.room, Count(p));
    if Count(p) > 2 { Monotone(2, Count(p) - 1, p.room); }
    if Count(p) < 2 { Monotone(Count(p), 1, p.room); }
  }

  /** Two halves that meet in one entry are written out together. */
  lemma HalvesMeet(e: Entry, f: Frame, g: Frame, now: int)
    requires e.expected == 0 && e.received == 0 && f.header.offset == 0 && f.header.flags == FLAG_MORE
    requires g.header.offset == |f.payload| && g.header.flags == FLAG_FINAL
    requires f.header.totalLen == |f.payload| + |g.payload| <= MAX_PACKET_SIZE && |f.payload| > 0
    ensures Absorb(e, f).0 == Filled(e, f) && Absorb(e, f).1.None?
    ensures Absorb(Filled(e, f).(lastActivity := now), g).1 == Some(f.payload + g.payload)
  {
    var n := |f.payload| + |g.payload|;
    var h := Filled(Filled(e, f).(lastActivity := now), g);
    assert h.received == n == h.expected;
    assert h.buffer[..n] == f.payload + g.payload;
  }

  /** A second half alone in its entry is kept waiting. */
  lemma HalfAlone(e: Entry, g: Frame)
    requires e.expected == 0 && e.received == 0 && g.header.offset + |g.payload| <= MAX_PACKET_SIZE
    requires |g.payload| < g.header.totalLen
    ensures Absorb(e, g).1.None?
  {
  }

  lemma EmptySlot(t: seq<Entry>, id: nat, e: Entry)
    requires |t| > 0 && forall j :: 0 <= j < |t| ==> !t[j].active
    ensures SlotFor(t, id) == 0
    ensures Holds(e, id) ==> SlotFor(t[0 := e], id) == 0
  {
    assert FirstHolding(t, id) == |t|;
  }

  /** The first half opens slot 0, and the sweep leaves it or zeroes it. */
  lemma {:induction false} FirstHalfSwept(p: Packet, sent: seq<Packet>, x: Event, y: Event, t: seq<Entry>)
    requires Honest(sent) && |sent| > 0 && sent[0] == p && !p.padded && |p.bytes| == 2 * p.room
    requires |t| > 0 && (forall j :: 0 <= j < |t| ==> !t[j].active) && x.Deliver? && x.p == 0 && x.i == 0 && y.SweepAt?
    requires Admissible(sent, [x, y])
    ensures Run(sent, [x, y], t).1 == [] && IsFrame(sent, 0, 0)
    ensures var e := Filled(Opened(t[0], p.id, x.now), FrameOf(sent, 0, 0));
            Run(sent, [x, y], t).0 == t[0 := if y.now - x.now <= REASSEMBLY_TIMEOUT then e else EMPTY]
  {
    HalfFrames(p);
    var f := FrameOf(sent, 0, 0);
    var e := Filled(Opened(t[0], p.id, x.now), f);
    EmptySlot(t, p.id, e);
    var none: seq<Event> := [];
    assert [x, y] == [x] + [y] && [x] == none + [x];
    RunNext(sent, [x], y, t);
    RunNext(sent, none, x, t);
    assert Absorb(Opened(t[0], p.id, x.now), f).0 == e;
    assert Run(sent, [x], t).0 == t[0 := e];
    assert Sweep(t[0 := e], y.now) == t[0 := if y.now - x.now <= REASSEMBLY_TIMEOUT then e else EMPTY];
  }

  /** Two packets of two frames under one id, the first half of one and the second half of the
      other delivered with a sweep in between: they are written out as one packet if and only
      if the sweep comes no more than 20 seconds after the first half. */
  lemma {:induction false} ReusedIdMixesIff(p: Packet, q: Packet, sent: seq<Packet>, events: seq<Event>, t: seq<Entry>,
                                            first: int, sweep: int, second: int)
    requires Sendable(p) && Sendable(q) && !p.padded && !q.padded && p.id == q.id && p.room == q.room && sent == [p, q]
    requires |p.bytes| == |q.bytes| == 2 * p.room && |t| > 0 && forall j :: 0 <= j < |t| ==> !t[j].active
    requires events == [Deliver(0, 0, first), SweepAt(sweep), Deliver(1, 1, second)]
    ensures Honest(sent) && Admissible(sent, events)
    ensures Run(sent, events, t).1 ==
            if sweep - first <= 20 then [(1, p.bytes[..p.room] + q.bytes[p.room..])] else []
  {
    HalfFrames(p);
    HalfFrames(q);
    var x, y, z := events[0], events[1], events[2];
    assert events == [x, y] + [z];
    RunNext(sent, [x, y], z, t);
    FirstHalfSwept(p, sent, x, y, t);
    var g := FrameOf(sent, 1, 1);
    var e := Filled(Opened(t[0], p.id, first), FrameOf(sent, 0, 0));
    EmptySlot(t, p.id, e);
    if sweep - first <= REASSEMBLY_TIMEOUT {
      HalvesMeet(Opened(t[0], p.id, first), FrameOf(sent, 0, 0), g, second);
    } else {
      EmptySlot(t[0 := EMPTY], p.id, EMPTY);
      HalfAlone(Opened(EMPTY, p.id, second), g);
    }
  }

  /** What the earlier session leaves: its first half in slot 0. */
  lemma {:induction false} LeftOpen(p: Packet, x: Event, t: seq<Entry>, first: int)
    requires Sendable(p) && !p.padded && |p.bytes| == 2 * p.room && x == Deliver(0, 0, first)
    requires |t| > 0 && (forall j :: 0 <= j < |t| ==> !t[j].active) && Honest([p]) && Admissible([p], [x])
    ensures 0 * p.room < |p.bytes|
    ensures var e := Filled(Opened(t[0], p.id, first), Fragment(p, 0));
            Holds(e, p.id) && Run([p], [x], t).0 == t[0 := e]
  {
    HalfFrames(p);
    var f := FrameOf([p], 0, 0);
    EmptySlot(t, p.id, EMPTY);
    var none: seq<Event> := [];
    assert [x] == none + [x];
    RunNext([p], none, x, t);
    assert Absorb(Opened(t[0], p.id, first), f).0 == Filled(Opened(t[0], p.id, first), f);
  }

  /** Distinct ids do not help against an earlier session: a packet of two frames lost its second,
      the slot's next session sends one under the same id with a sweep before it, and the two
      halves are written out as one packet if and only if the sweep comes no more than 20
      seconds after the first half. */
  lemma {:induction false} LeftoverMixesIff(p: Packet, q: Packet, t: seq<Entry>, x: Event, u: seq<Entry>, events: seq<Event>,
                                            first: int, sweep: int, second: int)
    requires Sendable(p) && Sendable(q) && !p.padded && !q.padded && p.id == q.id && p.room == q.room
    requires |p.bytes| == |q.bytes| == 2 * p.room && |t| > 0 && forall j :: 0 <= j < |t| ==> !t[j].active
    requires x == Deliver(0, 0, first) && Honest([p]) && Admissible([p], [x]) && u == Run([p], [x], t).0
    requires events == [SweepAt(sweep), Deliver(0, 1, second)]
    ensures Honest([q]) && IdsApart([q]) && Admissible([q], events)
    ensures Run([q], events, u).1 ==
            if sweep - first <= 20 then [(0, p.bytes[..p.room] + q.bytes[p.room..])] else []
  {
    HalfFrames(p);
    HalfFrames(q);
    LeftOpen(p, x, t, first);
    var sent := [q];
    var y, z := events[0], events[1];
    var none: seq<Event> := [];
    var g, e := FrameOf(sent, 0, 1), Filled(Opened(t[0], p.id, first), Fragment(p, 0));
    assert events == [y] + [z] && [y] == none + [y];
    RunNext(sent, [y], z, u);
    RunNext(sent, none, y, u);
    EmptySlot(t, p.id, e);
    if sweep - first <= REASSEMBLY_TIMEOUT {
      assert Sweep(u, sweep) == t[0 := e];
      HalvesMeet(Opened(t[0], p.id, first), Fragment(p, 0), g, second);
    } else {
      assert Sweep(u, sweep) == t[0 := EMPTY];
      EmptySlot(t[0 := EMPTY], p.id, EMPTY);
      HalfAlone(Opened(EMPTY, p.id, second), g);
    }
  }
}
