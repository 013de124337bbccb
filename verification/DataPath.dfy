/** One session's inbound path: replay check, decryption, window update, reassembly.
    Decryption is abstract: a datagram carries the frame it decrypts to under the session's
    keys, or nothing when authentication fails. */
module DataPath {
  import opened Words
  import opened Frames
  import opened Fragments
  import opened ReplayView
  import opened Reassembly
  import opened ReassemblySafety
  import opened IdReuse
  import RoundTrip
  import opened PacketIds

  datatype Receiver = Receiver(view: View, table: seq<Entry>)

  datatype Input =
    | Datagram(s: nat, plain: Option<Frame>, now: int)
    | SweepTable(now: int)
    | WipeSlot(j: nat)

  /** A packet handed to TUN, tagged with the sequence number that completed it. */
  datatype Write = Write(s: nat, bytes: seq<byte>)

  /** The receiver after a run, the sequence numbers it accepted and what it wrote, in order. */
  datatype Trace = Trace(receiver: Receiver, accepted: seq<nat>, writes: seq<Write>)

  const PKT_CTRL_DISCONNECT: nat := 0x03

  predicate IsControl(f: Frame)
  {
    f.header.flags == PKT_DUMMY || f.header.flags == PKT_CTRL_KEEPALIVE || f.header.flags == PKT_CTRL_DISCONNECT
  }

  ghost predicate WellTyped(inputs: seq<Input>)
  {
    forall n :: 0 <= n < |inputs| && inputs[n].Datagram? ==> inputs[n].s < TWO64
  }

  /** Replay check and decryption both pass. */
  predicate Accepts(r: Receiver, s: nat, plain: Option<Frame>)
  {
    !Rejects(r.view, s) && plain.Some?
  }

  /** The table after an accepted frame: control frames stop before it. */
  function Stored(t: seq<Entry>, f: Frame, now: int): seq<Entry>
  {
    if IsControl(f) then t else Receive(t, f, now).0
  }

  function Written(writes: seq<Write>, t: seq<Entry>, f: Frame, now: int, s: nat): seq<Write>
  {
    if !IsControl(f) && Receive(t, f, now).1.Some? then writes + [Write(s, Receive(t, f, now).1.value)] else writes
  }

  /** One input handled to the end. */
  function Handle(tr: Trace, input: Input): Trace
  {
    match input
    case SweepTable(now) => tr.(receiver := tr.receiver.(table := Sweep(tr.receiver.table, now)))
    case WipeSlot(j) => tr.(receiver := tr.receiver.(table := Wipe(tr.receiver.table, j)))
    case Datagram(s, plain, now) =>
      if !Accepts(tr.receiver, s, plain) then tr
      else Trace(Receiver(Advance(tr.receiver.view, s), Stored(tr.receiver.table, plain.value, now)),
                 tr.accepted + [s], Written(tr.writes, tr.receiver.table, plain.value, now, s))
  }

  function Process(start: Receiver, inputs: seq<Input>): Trace
  {
    if inputs == [] then Trace(start, [], [])
    else Handle(Process(start, inputs[..|inputs| - 1]), inputs[|inputs| - 1])
  }

  /** An accepted keepalive, disconnect or cover frame only marks the window: the table stays as
      it is and nothing is written. */
  lemma ControlIgnored(tr: Trace, s: nat, f: Frame, now: int)
    requires Accepts(tr.receiver, s, Some(f)) && f.header.flags in {0x02, 0x03, 0xFF}
    ensures Handle(tr, Datagram(s, Some(f), now)) ==
            Trace(Receiver(Advance(tr.receiver.view, s), tr.receiver.table), tr.accepted + [s], tr.writes)
  {
  }

  /** How a session starts: its window zeroed, but its slot's reassembly table as the session
      before left it, with at most one entry open per id. */
  ghost predicate Fresh(r: Receiver)
  {
    && |r.view.seen| < TWO64 && r.view.recvMax == 0 && (forall d :: 0 <= d < |r.view.seen| ==> !r.view.seen[d])
    && Unique(r.table)
  }

  ghost predicate Distinct(a: seq<nat>) { forall m, n :: 0 <= m < n < |a| ==> a[m] != a[n] }

  ghost function Elements(a: seq<nat>): set<nat> { set x | x in a }

  lemma ElementsAppend(a: seq<nat>, x: nat)
    ensures Elements(a + [x]) == Elements(a) + {x}
    ensures Distinct(a) && x !in a ==> Distinct(a + [x])
  {
  }

  /** The window always stands for the numbers accepted in the run, none of them twice,
      whatever arrives and however often. */
  lemma {:induction false} NeverTwice(start: Receiver, inputs: seq<Input>)
    requires Fresh(start) && WellTyped(inputs)
    ensures var r := Process(start, inputs);
            Represents(r.receiver.view, Elements(r.accepted)) && Distinct(r.accepted)
  {
    if inputs != [] {
      var n := |inputs| - 1;
      NeverTwice(start, inputs[..n]);
      var before := Process(start, inputs[..n]);
      if inputs[n].Datagram? && Accepts(before.receiver, inputs[n].s, inputs[n].plain) {
        AdvanceRepresents(before.receiver.view, Elements(before.accepted), inputs[n].s);
        ElementsAppend(before.accepted, inputs[n].s);
      }
    }
  }

  lemma {:induction false} TableUnique(start: Receiver, inputs: seq<Input>)
    requires Unique(start.table)
    ensures Unique(Process(start, inputs).receiver.table)
  {
    if inputs != [] {
      var n := |inputs| - 1;
      TableUnique(start, inputs[..n]);
      var input := inputs[n];
      if input.Datagram? && input.plain.Some? {
        ReceiveSlots(Process(start, inputs[..n]).receiver.table, input.plain.value, input.now);
      }
    }
  }

  /** Whatever one session receives, the next one on its slot, which gets a zeroed window and the
      table as it is, starts as the theorems ask. */
  lemma TakenOver(start: Receiver, inputs: seq<Input>, window: View)
    requires Fresh(start)
    requires |window.seen| < TWO64 && window.recvMax == 0 && forall d :: 0 <= d < |window.seen| ==> !window.seen[d]
    ensures Fresh(Receiver(window, Process(start, inputs).receiver.table))
  {
    TableUnique(start, inputs);
  }

  /** After any run a datagram is accepted exactly when it decrypts and its number is not zero,
      not accepted yet, not left of the window, and newest or clear of the 64-bit wrap; whatever
      is not accepted changes nothing. */
  lemma AcceptedIff(start: Receiver, inputs: seq<Input>, s: nat, plain: Option<Frame>, now: int)
    requires Fresh(start) && WellTyped(inputs) && s < TWO64
    ensures var tr := Process(start, inputs);
            var r, w, max := Handle(tr, Datagram(s, plain, now)), |tr.receiver.view.seen|, tr.receiver.view.recvMax;
            if plain.Some? && 0 < s && s !in tr.accepted && max < s + w && (s + w < 0x1_0000_0000_0000_0000 || max < s)
            then r.accepted == tr.accepted + [s] && r.receiver.view == Advance(tr.receiver.view, s)
            else r == tr
  {
    var tr := Process(start, inputs);
    var v := tr.receiver.view;
    NeverTwice(start, inputs);
    if 0 < s && s !in tr.accepted && v.recvMax < s + |v.seen| {
      FreshAcceptedIff(v, Elements(tr.accepted), s);
    } else if !Rejects(v, s) {
      AdvanceRepresents(v, Elements(tr.accepted), s);
      PassedInWindow(v, s);
    }
  }

  // ---------- Sender to TUN ----------

  /** What the sender sealed under one sequence number: a frame of a packet, or a control frame. */
  datatype Item = DataItem(p: nat, i: nat) | Control(f: Frame)

  /** The flags of frames that carry no packet: keepalive, disconnect and cover traffic. */
  ghost predicate ControlFlags(f: Frame) { f.header.flags == 0x02 || f.header.flags == 0x03 || f.header.flags == 0xFF }

  /** The sender's stream, indexed by sequence number: every frame of every packet at most once. */
  ghost predicate Stream(sent: seq<Packet>, wire: seq<Item>)
  {
    && Honest(sent)
    && (forall n :: 0 <= n < |wire| ==>
          match wire[n] case DataItem(p, i) => IsFrame(sent, p, i) case Control(f) => ControlFlags(f))
    && (forall m, n :: 0 <= m < n < |wire| && wire[m].DataItem? ==> wire[m] != wire[n])
  }

  ghost function FrameAt(sent: seq<Packet>, wire: seq<Item>, n: nat): Frame
    requires Stream(sent, wire) && n < |wire|
  {
    match wire[n] case DataItem(p, i) => FrameOf(sent, p, i) case Control(f) => f
  }

  /** Authentication: only what the sender sealed under a number decrypts under that number.
      Loss, repetition, reordering and forgeries are all allowed. */
  ghost predicate Authentic(sent: seq<Packet>, wire: seq<Item>, inputs: seq<Input>)
    requires Stream(sent, wire)
  {
    forall n :: 0 <= n < |inputs| && inputs[n].Datagram? && inputs[n].plain.Some? ==>
      inputs[n].s < |wire| && inputs[n].plain.value == FrameAt(sent, wire, inputs[n].s)
  }

  ghost function Done(wire: seq<Item>, accepted: set<nat>): set<(nat, nat)>
  {
    set n | n in accepted && n < |wire| && wire[n].DataItem? :: (wire[n].p, wire[n].i)
  }

  ghost predicate WriteSound(sent: seq<Packet>, wire: seq<Item>, w: Write)
    requires Stream(sent, wire)
  {
    w.s < |wire| && wire[w.s].DataItem? &&
    w.bytes == sent[wire[w.s].p].bytes && wire[w.s].i == Count(sent[wire[w.s].p]) - 1
  }

  lemma DoneGrows(sent: seq<Packet>, wire: seq<Item>, accepted: set<nat>, s: nat)
    requires Stream(sent, wire) && s < |wire| && s !in accepted
    ensures wire[s].Control? ==> Done(wire, accepted + {s}) == Done(wire, accepted)
    ensures wire[s].DataItem? ==>
              Done(wire, accepted + {s}) == Done(wire, accepted) + {(wire[s].p, wire[s].i)}
              && (wire[s].p, wire[s].i) !in Done(wire, accepted)
  {
  }

  lemma FrameKind(sent: seq<Packet>, wire: seq<Item>, s: nat)
    requires Stream(sent, wire) && s < |wire|
    ensures IsControl(FrameAt(sent, wire, s)) <==> wire[s].Control?
  {
    if wire[s].DataItem? {
      FragmentRange(sent[wire[s].p], wire[s].i);
    }
  }

  /** What reaches the table in a run: the accepted data frames, the sweeps and the wipes. */
  ghost function Events(wire: seq<Item>, start: Receiver, inputs: seq<Input>): seq<Event>
  {
    if inputs == [] then []
    else
      var n := |inputs| - 1;
      var before := Events(wire, start, inputs[..n]);
      match inputs[n]
      case SweepTable(now) => before + [SweepAt(now)]
      case WipeSlot(j) => before + [WipeAt(j)]
      case Datagram(s, plain, now) =>
        if Accepts(Process(start, inputs[..n]).receiver, s, plain) && s < |wire| && wire[s].DataItem?
        then before + [Deliver(wire[s].p, wire[s].i, now)]
        else before
  }

  /** The write log of a receiver is that of the reassembly run. */
  ghost predicate SameWrites(sent: seq<Packet>, wire: seq<Item>, w: seq<Write>, tagged: seq<(nat, seq<byte>)>)
    requires Stream(sent, wire)
  {
    |w| == |tagged| &&
    forall n :: 0 <= n < |w| ==>
      w[n].s < |wire| && wire[w[n].s].DataItem? && wire[w[n].s].i == Count(sent[wire[w[n].s].p]) - 1 &&
      tagged[n].0 == wire[w[n].s].p && tagged[n].1 == w[n].bytes
  }

  /** A run's frames reach the table once each, and it is the reassembly run over them. */
  ghost predicate Projected(sent: seq<Packet>, wire: seq<Item>, start: Receiver, r: Trace, events: seq<Event>)
    requires Stream(sent, wire)
  {
    Admissible(sent, events) && Delivered(events) == Done(wire, Elements(r.accepted)) &&
    Run(sent, events, start.table).0 == r.receiver.table && SameWrites(sent, wire, r.writes, Run(sent, events, start.table).1)
  }

  lemma WriteIsFinal(sent: seq<Packet>, t: seq<Entry>, p: nat, i: nat, now: int)
    requires Honest(sent) && IsFrame(sent, p, i) && Receive(t, FrameOf(sent, p, i), now).1.Some?
    ensures i == Count(sent[p]) - 1
  {
    FragmentRange(sent[p], i);
  }

  lemma AdmissibleNext(sent: seq<Packet>, events: seq<Event>, e: Event)
    requires Honest(sent) && Admissible(sent, events)
    requires e.Deliver? ==> IsFrame(sent, e.p, e.i) && (e.p, e.i) !in Delivered(events)
    ensures Admissible(sent, events + [e])
    ensures Delivered(events + [e]) == if e.Deliver? then Delivered(events) + {(e.p, e.i)} else Delivered(events)
  {
    DeliveredOne(events + [e]);
    assert (events + [e])[..|events|] == events;
  }

  lemma QuietProjected(sent: seq<Packet>, wire: seq<Item>, start: Receiver, r: Trace, events: seq<Event>, e: Event, input: Input)
    requires Stream(sent, wire) && Projected(sent, wire, start, r, events)
    requires match input case SweepTable(now) => e == SweepAt(now) case WipeSlot(j) => e == WipeAt(j) case Datagram(_, _, _) => false
    ensures Projected(sent, wire, start, Handle(r, input), events + [e])
  {
    AdmissibleNext(sent, events, e);
    RunNext(sent, events, e, start.table);
  }

  lemma DataOnce(sent: seq<Packet>, wire: seq<Item>, accepted: seq<nat>, events: seq<Event>, s: nat, now: int)
    requires Stream(sent, wire) && s < |wire| && s !in accepted && wire[s].DataItem?
    requires Admissible(sent, events) && Delivered(events) == Done(wire, Elements(accepted))
    ensures var e := Deliver(wire[s].p, wire[s].i, now);
            Admissible(sent, events + [e]) && Delivered(events + [e]) == Done(wire, Elements(accepted + [s]))
  {
    DoneGrows(sent, wire, Elements(accepted), s);
    ElementsAppend(accepted, s);
    AdmissibleNext(sent, events, Deliver(wire[s].p, wire[s].i, now));
  }

  lemma DataWrites(sent: seq<Packet>, wire: seq<Item>, t: seq<Entry>, w: seq<Write>, tagged: seq<(nat, seq<byte>)>, s: nat, now: int)
    requires Stream(sent, wire) && SameWrites(sent, wire, w, tagged) && s < |wire| && wire[s].DataItem?
    requires Receive(t, FrameOf(sent, wire[s].p, wire[s].i), now).1.Some?
    ensures var bytes := Receive(t, FrameOf(sent, wire[s].p, wire[s].i), now).1.value;
            SameWrites(sent, wire, w + [Write(s, bytes)], tagged + [(wire[s].p, bytes)])
  {
    WriteIsFinal(sent, t, wire[s].p, wire[s].i, now);
  }

  lemma DataProjected(sent: seq<Packet>, wire: seq<Item>, start: Receiver, r: Trace, events: seq<Event>, s: nat, now: int)
    requires Stream(sent, wire) && Projected(sent, wire, start, r, events) && s < |wire| && s !in r.accepted
    requires wire[s].DataItem? && Accepts(r.receiver, s, Some(FrameAt(sent, wire, s)))
    ensures Projected(sent, wire, start, Handle(r, Datagram(s, Some(FrameAt(sent, wire, s)), now)),
                      events + [Deliver(wire[s].p, wire[s].i, now)])
  {
    var e := Deliver(wire[s].p, wire[s].i, now);
    FrameKind(sent, wire, s);
    DataOnce(sent, wire, r.accepted, events, s, now);
    RunNext(sent, events, e, start.table);
    if Receive(r.receiver.table, FrameOf(sent, e.p, e.i), now).1.Some? {
      DataWrites(sent, wire, r.receiver.table, r.writes, Run(sent, events, start.table).1, s, now);
    }
  }

  lemma AcceptProjected(sent: seq<Packet>, wire: seq<Item>, start: Receiver, r: Trace, events: seq<Event>, s: nat, now: int)
    requires Stream(sent, wire) && Projected(sent, wire, start, r, events) && s < |wire| && s !in r.accepted
    requires Accepts(r.receiver, s, Some(FrameAt(sent, wire, s)))
    ensures var e := wire[s];
            Projected(sent, wire, start, Handle(r, Datagram(s, Some(FrameAt(sent, wire, s)), now)),
                      if e.DataItem? then events + [Deliver(e.p, e.i, now)] else events)
  {
    FrameKind(sent, wire, s);
    if wire[s].DataItem? {
      DataProjected(sent, wire, start, r, events, s, now);
    } else {
      DoneGrows(sent, wire, Elements(r.accepted), s);
      ElementsAppend(r.accepted, s);
    }
  }

  lemma {:induction false} RunProjected(sent: seq<Packet>, wire: seq<Item>, start: Receiver, inputs: seq<Input>)
    requires Stream(sent, wire) && Fresh(start) && WellTyped(inputs) && Authentic(sent, wire, inputs)
    ensures Projected(sent, wire, start, Process(start, inputs), Events(wire, start, inputs))
  {
    if inputs == [] {
      assert Delivered([]) == Done(wire, {});
      assert Elements([]) == {};
    } else {
      var n := |inputs| - 1;
      RunProjected(sent, wire, start, inputs[..n]);
      NeverTwice(start, inputs[..n]);
      var r, events := Process(start, inputs[..n]), Events(wire, start, inputs[..n]);
      match inputs[n] {
        case SweepTable(now) => QuietProjected(sent, wire, start, r, events, SweepAt(now), inputs[n]);
        case WipeSlot(j) => QuietProjected(sent, wire, start, r, events, WipeAt(j), inputs[n]);
        case Datagram(s, plain, now) =>
          if Accepts(r.receiver, s, plain) {
            AdvanceRepresents(r.receiver.view, Elements(r.accepted), s);
            AcceptProjected(sent, wire, start, r, events, s, now);
          }
      }
    }
  }

  /** All writes are packets that were sent, none of them twice. */
  ghost predicate OnlySent(sent: seq<Packet>, wire: seq<Item>, w: seq<Write>)
    requires Stream(sent, wire)
  {
    && (forall n :: 0 <= n < |w| ==> WriteSound(sent, wire, w[n]))
    && (forall m, n :: 0 <= m < n < |w| ==> wire[w[m].s].p != wire[w[n].s].p)
  }

  /** The accepted frames of a run never meet an entry another packet left open. */
  ghost predicate Unmixed(sent: seq<Packet>, wire: seq<Item>, start: Receiver, inputs: seq<Input>)
    requires Stream(sent, wire)
  {
    var events := Events(wire, start, inputs);
    Admissible(sent, events) && NoMixing(sent, events, start.table)
  }

  /** End to end: over a network that loses, repeats, reorders and forges datagrams, with
      sweeps, wiped slots and a full table at any time, and a table taken over from an earlier
      session, every write to TUN is byte for byte a
      packet the sender fragmented, and no packet is written twice. */
  lemma EndToEnd(sent: seq<Packet>, wire: seq<Item>, start: Receiver, inputs: seq<Input>)
    requires Stream(sent, wire) && Fresh(start) && WellTyped(inputs) && Authentic(sent, wire, inputs)
    requires Unmixed(sent, wire, start, inputs)
    ensures OnlySent(sent, wire, Process(start, inputs).writes)
  {
    RunProjected(sent, wire, start, inputs);
    RunSound(sent, Events(wire, start, inputs), start.table);
  }

  /** The write is packet p, byte for byte, made for its final frame. */
  ghost predicate Writes(sent: seq<Packet>, wire: seq<Item>, w: Write, p: nat)
    requires Stream(sent, wire) && p < |sent|
  {
    w.bytes == sent[p].bytes && w.s < |wire| && wire[w.s].DataItem? && wire[w.s].p == p && wire[w.s].i + 1 == Count(sent[p])
  }

  ghost predicate WritesOut(sent: seq<Packet>, wire: seq<Item>, w: seq<Write>, p: nat)
    requires Stream(sent, wire) && p < |sent|
  {
    exists n :: 0 <= n < |w| && Writes(sent, wire, w[n], p)
  }

  /** Delivery end to end: over the same network, a packet whose frames are all accepted, the
      last of them at the end of the first inputs, that got a slot and was not disturbed, is
      written to TUN if and only if its final frame was accepted last. */
  lemma DeliveredIff(sent: seq<Packet>, wire: seq<Item>, start: Receiver, inputs: seq<Input>, events: seq<Event>, p: nat, a: nat)
    requires Stream(sent, wire) && Fresh(start) && WellTyped(inputs) && Authentic(sent, wire, inputs)
    requires Unmixed(sent, wire, start, inputs) && events <= Events(wire, start, inputs) && Admissible(sent, events)
    requires RoundTrip.Spans(sent, events, p, a) && RoundTrip.Undisturbed(sent, events, p, a)
    requires forall n :: |events| <= n < |Events(wire, start, inputs)| ==> !RoundTrip.Of(Events(wire, start, inputs)[n], p)
    requires SlotFor(Run(sent, events[..a], start.table).0, sent[p].id) < |start.table|
    ensures WritesOut(sent, wire, Process(start, inputs).writes, p) <==> events[|events| - 1].i == Count(sent[p]) - 1
  {
    var all := Events(wire, start, inputs);
    RunProjected(sent, wire, start, inputs);
    var rest := all[|events|..];
    assert all == events + rest;
    RoundTrip.RoundTripIff(sent, events, rest, start.table, p, a);
    SameWritten(sent, wire, Process(start, inputs).writes, Run(sent, all, start.table).1, Delivered(all), p);
  }

  lemma SameWritten(sent: seq<Packet>, wire: seq<Item>, w: seq<Write>, tagged: seq<(nat, seq<byte>)>, done: set<(nat, nat)>, p: nat)
    requires Stream(sent, wire) && SameWrites(sent, wire, w, tagged) && WritesSound(sent, done, tagged) && p < |sent|
    ensures RoundTrip.WrittenOut(tagged, p) <==> WritesOut(sent, wire, w, p)
  {
    assert forall n :: 0 <= n < |w| ==> (tagged[n].0 == p <==> Writes(sent, wire, w[n], p));
  }

  /** Runs are unmixed exactly when each id is released, by completion, a full table, a wipe or
      a sweep more than 20 seconds after its last frame, before another packet uses it; in
      particular when the ids are all different and none was left open by the session before. */
  lemma UnmixedIff(sent: seq<Packet>, wire: seq<Item>, start: Receiver, inputs: seq<Input>)
    requires Stream(sent, wire) && Fresh(start) && WellTyped(inputs) && Authentic(sent, wire, inputs)
    ensures Admissible(sent, Events(wire, start, inputs))
    ensures Unmixed(sent, wire, start, inputs) <==> Separated(sent, Events(wire, start, inputs), start.table)
    ensures IdsApart(sent) && NoneLeft(sent, start.table) ==> Unmixed(sent, wire, start, inputs)
  {
    RunProjected(sent, wire, start, inputs);
    MixingIff(sent, Events(wire, start, inputs), start.table);
    if IdsApart(sent) && NoneLeft(sent, start.table) {
      ApartNeverMix(sent, Events(wire, start, inputs), start.table);
    }
  }

  /** The ids a sender draws are distinct as long as no more than 65535 packets are in play. */
  lemma DrawnIdsApart(sent: seq<Packet>, first: nat, draw: seq<nat>)
    requires |draw| == |sent| && (forall p :: 0 <= p < |sent| ==> sent[p].id == Id(draw[p]))
    requires forall p, q :: 0 <= p < q < |sent| ==> first <= draw[p] < draw[q] < first + PERIOD
    ensures IdsApart(sent)
  {
    forall p, q | 0 <= p < q < |sent|
      ensures sent[p].id != sent[q].id
    {
      IdsDistinct(draw[p], draw[q]);
    }
  }
}
