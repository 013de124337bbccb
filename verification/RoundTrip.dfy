/** Cutting a packet and delivering all its frames, in any order, among any other traffic. */
module RoundTrip {
  import opened Frames
  import opened Fragments
  import opened Reassembly
  import opened ReassemblySafety

  // ---------- One frame ----------

  lemma CountedAll(p: Packet, s: set<nat>)
    requires Sendable(p) && |s| == Count(p) && Count(p) - 1 in s
    ensures Counted(p, s) >= |p.bytes|
  {
    Tiling(|p.bytes|, p.room, Count(p));
  }

  /** With a frame still missing the entry stays open and nothing is written. */
  lemma StillOpen(p: Packet, s: set<nat>, d: Entry, i: nat)
    requires OpenFor(p, s, d) && i < Count(p) && i !in s && |s| + 1 < Count(p)
    ensures i * p.room < |p.bytes| && Fragment(p, i).header.offset + |Fragment(p, i).payload| <= MAX_PACKET_SIZE
    ensures Absorb(d, Fragment(p, i)).0 == Filled(d, Fragment(p, i)) && Absorb(d, Fragment(p, i)).1.None?
    ensures Contains(p, s + {i}, Filled(d, Fragment(p, i)))
  {
    FilledHolds(p, s, d, i);
    FragmentRange(p, i);
    if i == Count(p) - 1 {
      CountedShort(p, s + {i});
    }
  }

  /** The last frame to arrive completes the packet exactly when it is the final one. */
  lemma LastDelivery(p: Packet, s: set<nat>, d: Entry, i: nat)
    requires OpenFor(p, s, d) && i < Count(p) && i !in s && |s| + 1 == Count(p)
    ensures i * p.room < |p.bytes|
    ensures i == Count(p) - 1 ==> Absorb(d, Fragment(p, i)).1 == Some(p.bytes)
    ensures i != Count(p) - 1 ==> Absorb(d, Fragment(p, i)).1.None?
  {
    FilledHolds(p, s, d, i);
    FragmentRange(p, i);
    AbsorbSound(p, s, d, i);
    if i == Count(p) - 1 {
      CountedAll(p, s + {i});
    }
  }

  // ---------- One packet in a run ----------

  ghost predicate Of(e: Event, p: nat) { e.Deliver? && e.p == p }

  /** The frames of packet p delivered so far. */
  ghost function Got(events: seq<Event>, p: nat): set<nat>
  {
    set n | 0 <= n < |events| && Of(events[n], p) :: events[n].i
  }

  /** When the packet's last frame so far was delivered. */
  ghost function LastTime(events: seq<Event>, p: nat): int
  {
    if events == [] then 0
    else
      var n := |events| - 1;
      if Of(events[n], p) then events[n].now else LastTime(events[..n], p)
  }

  ghost predicate WrittenOut(writes: seq<(nat, seq<byte>)>, p: nat)
  {
    exists n :: 0 <= n < |writes| && writes[n].0 == p
  }

  /** The first frame of packet p is delivered at a, the last one at the end, and all of them. */
  ghost predicate Spans(sent: seq<Packet>, events: seq<Event>, p: nat, a: nat)
    requires Honest(sent)
  {
    && p < |sent| && a < |events| && Of(events[a], p) && Of(events[|events| - 1], p)
    && (forall n :: 0 <= n < a ==> !Of(events[n], p))
    && (forall i :: 0 <= i < Count(sent[p]) ==> i in Got(events, p))
  }

  /** After event a nothing takes the packet's entry away: no other packet under its id, no
      wipe, and no sweep more than 20 seconds after its previous frame.  Frames of other
      packets and all other sweeps may fall anywhere. */
  ghost predicate Undisturbed(sent: seq<Packet>, events: seq<Event>, p: nat, a: nat)
    requires Honest(sent) && p < |sent|
  {
    |events| <= a + 1 ||
    var n := |events| - 1;
    Undisturbed(sent, events[..n], p, a) &&
    match events[n]
    case Deliver(q, _, _) => q == p || (q < |sent| && sent[q].id != sent[p].id)
    case WipeAt(_) => false
    case SweepAt(now) => now - LastTime(events[..n], p) <= REASSEMBLY_TIMEOUT
  }

  lemma GotOne(events: seq<Event>, p: nat)
    requires events != []
    ensures var n := |events| - 1;
            Got(events, p) == if Of(events[n], p) then Got(events[..n], p) + {events[n].i} else Got(events[..n], p)
  {
    var n := |events| - 1;
    assert forall k :: 0 <= k < n ==> events[..n][k] == events[k];
  }

  lemma GotGrows(sent: seq<Packet>, events: seq<Event>, p: nat)
    requires Honest(sent) && Admissible(sent, events) && events != [] && p < |sent|
    ensures var n := |events| - 1;
            Of(events[n], p) ==>
              events[n].i < Count(sent[p]) && events[n].i !in Got(events[..n], p) &&
              |Got(events, p)| == |Got(events[..n], p)| + 1
  {
    GotOne(events, p);
  }

  /** Slot j is the packet's, open, and holds exactly its frames delivered so far. */
  ghost predicate OpenAt(sent: seq<Packet>, before: seq<Event>, t: seq<Entry>, p: nat, j: nat)
    requires Honest(sent) && p < |sent|
  {
    && j < |t| && Holds(t[j], sent[p].id) && Contains(sent[p], Got(before, p), t[j])
    && t[j].lastActivity == LastTime(before, p)
  }

  /** The first frame finds no entry under its id, if there is a slot it is a zeroed one. */
  lemma Opens(sent: seq<Packet>, before: seq<Event>, t: seq<Entry>, p: nat, now: int)
    requires Honest(sent) && Admissible(sent, before) && p < |sent|
    requires Clear(t, OwnersOf(sent, before), sent[p].id, p) && Got(before, p) == {}
    requires SlotFor(t, sent[p].id) < |t|
    ensures OpenFor(sent[p], {}, Opened(t[SlotFor(t, sent[p].id)], sent[p].id, now))
  {
    var id := sent[p].id;
    var j := SlotFor(t, id);
    if Holds(t[j], id) {
      OwnerDelivered(sent, before, id);
      assert false;
    }
  }

  lemma {:induction false} OwnerDelivered(sent: seq<Packet>, events: seq<Event>, id: nat)
    requires Honest(sent) && Admissible(sent, events) && id in OwnersOf(sent, events)
    ensures Got(events, OwnersOf(sent, events)[id]) != {}
  {
    var n := |events| - 1;
    var p := OwnersOf(sent, events)[id];
    GotOne(events, p);
    if !Of(events[n], p) {
      OwnerDelivered(sent, events[..n], id);
    }
  }

  /** A frame of the packet, not its last, is added to its entry. */
  lemma OwnStep(sent: seq<Packet>, events: seq<Event>, t: seq<Entry>, p: nat, j: nat)
    requires Honest(sent) && Admissible(sent, events) && p < |sent| && events != [] && Of(events[|events| - 1], p)
    requires j < |t| && j == SlotFor(t, sent[p].id)
    requires var n := |events| - 1; OpenFor(sent[p], Got(events[..n], p), Opened(t[j], sent[p].id, events[n].now))
    requires |Got(events, p)| < Count(sent[p])
    ensures var e := events[|events| - 1]; OpenAt(sent, events, Receive(t, FrameOf(sent, p, e.i), e.now).0, p, j)
  {
    var n := |events| - 1;
    GotOne(events, p);
    GotGrows(sent, events, p);
    StillOpen(sent[p], Got(events[..n], p), Opened(t[j], sent[p].id, events[n].now), events[n].i);
  }

  /** Anything else leaves the packet's entry alone. */
  lemma OtherStep(sent: seq<Packet>, events: seq<Event>, t: seq<Entry>, p: nat, j: nat, a: nat)
    requires Honest(sent) && Admissible(sent, events) && p < |sent| && a + 1 < |events| && !Of(events[|events| - 1], p)
    requires Undisturbed(sent, events, p, a) && Unique(t) && OpenAt(sent, events[..|events| - 1], t, p, j)
    ensures match events[|events| - 1]
            case Deliver(q, i, now) => OpenAt(sent, events, Receive(t, FrameOf(sent, q, i), now).0, p, j)
            case SweepAt(now) => OpenAt(sent, events, Sweep(t, now), p, j)
            case WipeAt(_) => false
  {
    GotOne(events, p);
    var e := events[|events| - 1];
    if e.Deliver? {
      ReceiveSlots(t, FrameOf(sent, e.p, e.i), e.now);
    }
  }

  /** What the packet's next frame finds: a slot holding exactly what arrived so far. */
  lemma NextFinds(sent: seq<Packet>, before: seq<Event>, t: seq<Entry>, p: nat, j: nat, now: int)
    requires Honest(sent) && p < |sent| && Unique(t) && OpenAt(sent, before, t, p, j)
    ensures SlotFor(t, sent[p].id) == j && OpenFor(sent[p], Got(before, p), Opened(t[j], sent[p].id, now))
  {
    FirstIsOnly(t, sent[p].id, j);
    assert Contains(sent[p], Got(before, p), Opened(t[j], sent[p].id, now));
  }

  /** The packet's first frame opens its entry. */
  lemma OpensAt(sent: seq<Packet>, events: seq<Event>, t: seq<Entry>, p: nat) returns (j: nat)
    requires Honest(sent) && Admissible(sent, events) && NoMixing(sent, events, t) && p < |sent| && events != []
    requires Of(events[|events| - 1], p) && Got(events[..|events| - 1], p) == {} && |Got(events, p)| < Count(sent[p])
    requires SlotFor(Run(sent, events[..|events| - 1], t).0, sent[p].id) < |Run(sent, events[..|events| - 1], t).0|
    ensures OpenAt(sent, events, Run(sent, events, t).0, p, j)
  {
    var n := |events| - 1;
    var u := Run(sent, events[..n], t).0;
    j := SlotFor(u, sent[p].id);
    Opens(sent, events[..n], u, p, events[n].now);
    OwnStep(sent, events, u, p, j);
  }

  /** One more event, the packet's or not, leaves its entry open. */
  lemma StaysAt(sent: seq<Packet>, events: seq<Event>, t: seq<Entry>, p: nat, j: nat, a: nat)
    requires Honest(sent) && Admissible(sent, events) && p < |sent| && a + 1 < |events|
    requires Undisturbed(sent, events, p, a) && |Got(events, p)| < Count(sent[p])
    requires var u := Run(sent, events[..|events| - 1], t).0; Unique(u) && OpenAt(sent, events[..|events| - 1], u, p, j)
    ensures OpenAt(sent, events, Run(sent, events, t).0, p, j)
  {
    var n := |events| - 1;
    var u := Run(sent, events[..n], t).0;
    if Of(events[n], p) {
      NextFinds(sent, events[..n], u, p, j, events[n].now);
      OwnStep(sent, events, u, p, j);
    } else {
      OtherStep(sent, events, u, p, j, a);
    }
  }

  lemma GotLess(sent: seq<Packet>, events: seq<Event>, p: nat)
    requires Honest(sent) && Admissible(sent, events) && events != [] && p < |sent|
    ensures |Got(events[..|events| - 1], p)| <= |Got(events, p)|
  {
    GotOne(events, p);
    GotGrows(sent, events, p);
  }

  /** As long as frames are missing the packet's entry stays open. */
  lemma {:induction false} StaysOpen(sent: seq<Packet>, events: seq<Event>, t: seq<Entry>, p: nat, a: nat) returns (j: nat)
    requires Honest(sent) && Admissible(sent, events) && NoMixing(sent, events, t)
    requires p < |sent| && a < |events| && Of(events[a], p) && (forall n :: 0 <= n < a ==> !Of(events[n], p))
    requires Unique(t)
    requires Undisturbed(sent, events, p, a) && |Got(events, p)| < Count(sent[p])
    requires SlotFor(Run(sent, events[..a], t).0, sent[p].id) < |t|
    ensures OpenAt(sent, events, Run(sent, events, t).0, p, j)
  {
    var n := |events| - 1;
    var init := events[..n];
    RunUnique(sent, init, t);
    if n == a {
      assert Got(init, p) == {};
      j := OpensAt(sent, events, t, p);
    } else {
      assert init[..a] == events[..a];
      GotLess(sent, events, p);
      j := StaysOpen(sent, init, t, p, a);
      StaysAt(sent, events, t, p, j, a);
    }
  }

  lemma {:induction false} FullSize(s: set<nat>, k: nat)
    requires forall i :: i in s <==> 0 <= i < k
    ensures |s| == k
  {
    if k > 0 {
      FullSize(s - {k - 1}, k - 1);
    } else {
      assert s == {};
    }
  }

  /** Just before the last delivery exactly one frame is missing. */
  lemma Complement(sent: seq<Packet>, events: seq<Event>, p: nat, a: nat)
    requires Honest(sent) && Admissible(sent, events) && Spans(sent, events, p, a)
    ensures var n := |events| - 1;
            events[n].i !in Got(events[..n], p) && events[n].i < Count(sent[p]) &&
            |Got(events[..n], p)| + 1 == Count(sent[p])
  {
    FullSize(Got(events, p), Count(sent[p]));
    GotGrows(sent, events, p);
  }

  /** What the packet's last frame finds: everything but itself. */
  lemma LastFinds(sent: seq<Packet>, events: seq<Event>, t: seq<Entry>, p: nat, a: nat)
    requires Honest(sent) && Admissible(sent, events) && NoMixing(sent, events, t) && Spans(sent, events, p, a)
    requires Unique(t)
    requires Undisturbed(sent, events, p, a) && SlotFor(Run(sent, events[..a], t).0, sent[p].id) < |t|
    ensures var n, id := |events| - 1, sent[p].id;
            var u := Run(sent, events[..n], t).0;
            SlotFor(u, id) < |u| && OpenFor(sent[p], Got(events[..n], p), Opened(u[SlotFor(u, id)], id, events[n].now))
  {
    var n := |events| - 1;
    var init := events[..n];
    var u := Run(sent, init, t).0;
    Complement(sent, events, p, a);
    RunUnique(sent, init, t);
    if a == n {
      assert Got(init, p) == {};
      Opens(sent, init, u, p, events[n].now);
    } else {
      assert init[..a] == events[..a];
      var k := StaysOpen(sent, init, t, p, a);
      NextFinds(sent, init, u, p, k, events[n].now);
    }
  }

  /** At its last delivery the packet is written if and only if that is the final frame. */
  lemma LastWrites(sent: seq<Packet>, events: seq<Event>, t: seq<Entry>, p: nat, a: nat)
    requires Honest(sent) && Admissible(sent, events) && NoMixing(sent, events, t) && Spans(sent, events, p, a)
    requires Unique(t)
    requires Undisturbed(sent, events, p, a) && SlotFor(Run(sent, events[..a], t).0, sent[p].id) < |t|
    ensures var e := events[|events| - 1];
            Receive(Run(sent, events[..|events| - 1], t).0, FrameOf(sent, p, e.i), e.now).1 ==
            if e.i == Count(sent[p]) - 1 then Some(sent[p].bytes) else None
  {
    var n := |events| - 1;
    var u, id := Run(sent, events[..n], t).0, sent[p].id;
    LastFinds(sent, events, t, p, a);
    Complement(sent, events, p, a);
    LastDelivery(sent[p], Got(events[..n], p), Opened(u[SlotFor(u, id)], id, events[n].now), events[n].i);
  }

  /** Up to its last frame the packet is written if and only if that frame is the final one. */
  lemma WrittenAtLast(sent: seq<Packet>, events: seq<Event>, t: seq<Entry>, p: nat, a: nat)
    requires Honest(sent) && Admissible(sent, events) && NoMixing(sent, events, t) && Spans(sent, events, p, a)
    requires Unique(t)
    requires Undisturbed(sent, events, p, a) && SlotFor(Run(sent, events[..a], t).0, sent[p].id) < |t|
    ensures WrittenOut(Run(sent, events, t).1, p) <==> events[|events| - 1].i == Count(sent[p]) - 1
  {
    var n := |events| - 1;
    var x, y := Run(sent, events[..n], t).1, Run(sent, events, t).1;
    LastWrites(sent, events, t, p, a);
    RunSound(sent, events[..n], t);
    assert (p, events[n].i) !in Delivered(events[..n]);
    assert !WrittenOut(x, p);
    if events[n].i == Count(sent[p]) - 1 {
      assert y[|x|].0 == p;
    }
  }

  /** Writes of p come only from deliveries of p. */
  lemma {:induction false} NoLaterWrites(sent: seq<Packet>, events: seq<Event>, later: seq<Event>, t: seq<Entry>, p: nat)
    requires Honest(sent) && Admissible(sent, events + later) && Admissible(sent, events)
    requires forall n :: 0 <= n < |later| ==> !Of(later[n], p)
    ensures WrittenOut(Run(sent, events + later, t).1, p) <==> WrittenOut(Run(sent, events, t).1, p)
  {
    if later == [] {
      assert events + later == events;
    } else {
      var k := |later| - 1;
      var all, n := events + later, |events| + |later| - 1;
      assert all[..n] == events + later[..k] && all[n] == later[k];
      NoLaterWrites(sent, events, later[..k], t, p);
      var x, y := Run(sent, all[..n], t).1, Run(sent, all, t).1;
      assert |x| <= |y| <= |x| + 1 && (forall k :: 0 <= k < |x| ==> y[k] == x[k]) && (|y| > |x| ==> y[|x|].0 != p);
    }
  }

  lemma {:induction false} NoMixingPrefix(sent: seq<Packet>, events: seq<Event>, later: seq<Event>, t: seq<Entry>)
    requires Honest(sent) && Admissible(sent, events + later) && NoMixing(sent, events + later, t)
    ensures Admissible(sent, events) && NoMixing(sent, events, t)
  {
    if later == [] {
      assert events + later == events;
    } else {
      var k := |later| - 1;
      assert (events + later)[..|events| + k] == events + later[..k];
      NoMixingPrefix(sent, events, later[..k], t);
    }
  }

  /** Round trip: in a run with any other traffic, a packet all of whose frames arrive, padded
      or not and in any order, and whose entry is not taken away in between, is written out,
      byte for byte and once, if and only if its final frame arrives last. */
  lemma RoundTripIff(sent: seq<Packet>, events: seq<Event>, later: seq<Event>, t: seq<Entry>, p: nat, a: nat)
    requires Honest(sent) && Admissible(sent, events + later) && NoMixing(sent, events + later, t)
    requires Admissible(sent, events) && Spans(sent, events, p, a) && Undisturbed(sent, events, p, a)
    requires Unique(t)
    requires forall n :: 0 <= n < |later| ==> !Of(later[n], p)
    requires SlotFor(Run(sent, events[..a], t).0, sent[p].id) < |t|
    ensures WrittenOut(Run(sent, events + later, t).1, p) <==> events[|events| - 1].i == Count(sent[p]) - 1
    ensures WritesSound(sent, Delivered(events + later), Run(sent, events + later, t).1)
  {
    RunSound(sent, events + later, t);
    NoMixingPrefix(sent, events, later, t);
    WrittenAtLast(sent, events, t, p, a);
    NoLaterWrites(sent, events, later, t, p);
  }

  lemma TwoFrames(p: Packet, sent: seq<Packet>, events: seq<Event>, t: seq<Entry>, now: int)
    requires Sendable(p) && Count(p) == 2 && |t| > 0 && (forall j :: 0 <= j < |t| ==> !t[j].active) && sent == [p]
    requires events == [Deliver(0, 1, now), Deliver(0, 0, now)]
    ensures Honest(sent) && Admissible(sent, events) && Spans(sent, events, 0, 0) && Undisturbed(sent, events, 0, 0)
    ensures events[..0] == [] && SlotFor(t, p.id) < |t|
  {
    assert events[0].i in Got(events, 0) && events[1].i in Got(events, 0);
    assert FirstHolding(t, p.id) == |t| && FirstFree(t) == 0;
  }

  /** With one packet sent, any write is a write of it. */
  lemma OnlyPacket(sent: seq<Packet>, done: set<(nat, nat)>, writes: seq<(nat, seq<byte>)>)
    requires Honest(sent) && |sent| == 1 && WritesSound(sent, done, writes)
    ensures WrittenOut(writes, 0) <==> writes != []
  {
    if writes != [] {
      assert writes[0].0 == 0;
    }
  }

  /** The failing order: a packet of two frames whose final one comes first is never written. */
  lemma {:induction false} FinalFirstIsLost(p: Packet, sent: seq<Packet>, events: seq<Event>, t: seq<Entry>, now: int)
    requires Sendable(p) && Count(p) == 2 && |t| > 0 && (forall j :: 0 <= j < |t| ==> !t[j].active) && sent == [p]
    requires events == [Deliver(0, 1, now), Deliver(0, 0, now)]
    ensures Honest(sent) && Admissible(sent, events) && Run(sent, events, t).1 == []
  {
    TwoFrames(p, sent, events, t, now);
    ApartNeverMix(sent, events, t);
    RunSound(sent, events, t);
    OnlyPacket(sent, Delivered(events), Run(sent, events, t).1);
    WrittenAtLast(sent, events, t, 0, 0);
  }
}
