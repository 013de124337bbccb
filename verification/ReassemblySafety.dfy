/** Reassembly over whole runs: whatever is lost, reordered, interleaved, swept away or
    refused by a full table, the receiver writes only packets the sender cut, each at most once.
    Packets may share an id as long as no frame meets an entry left open by another packet. */
module ReassemblySafety {
  import opened Frames
  import opened Fragments
  import opened Reassembly

  /** What reaches the table: frame i of the p-th packet sent, an expiry sweep, or the zeroing
      of one slot at any time. */
  datatype Event = Deliver(p: nat, i: nat, now: int) | SweepAt(now: int) | WipeAt(j: nat)

  ghost predicate Honest(sent: seq<Packet>)
  {
    forall p :: 0 <= p < |sent| ==> Sendable(sent[p])
  }

  ghost predicate IdsApart(sent: seq<Packet>)
  {
    forall p, q :: 0 <= p < q < |sent| ==> sent[p].id != sent[q].id
  }

  /** For each id, the packet whose frame was delivered last under it. */
  type Owners = map<nat, nat>

  ghost predicate IsFrame(sent: seq<Packet>, p: nat, i: nat)
    requires Honest(sent)
  {
    p < |sent| && i < Count(sent[p])
  }

  ghost function FrameOf(sent: seq<Packet>, p: nat, i: nat): Frame
    requires Honest(sent) && IsFrame(sent, p, i)
  {
    FragmentRange(sent[p], i);
    Fragment(sent[p], i)
  }

  /** Bytes counted once the frames with indices in s have been absorbed. */
  ghost function Counted(p: Packet, s: set<nat>): int
    requires Sendable(p)
  {
    var last := Count(p) - 1;
    if last in s && !p.padded then (|s| - 1) * p.room + (|p.bytes| - last * p.room) else |s| * p.room
  }

  /** An entry's buffer and counters hold exactly the frames s of packet p. */
  ghost predicate Contains(p: Packet, s: set<nat>, e: Entry)
  {
    && Sendable(p)
    && e.expected == |p.bytes|
    && (forall i :: i in s ==> i < Count(p))
    && e.received == Counted(p, s)
    && (forall x, i {:trigger p.bytes[x], i in s} ::
          0 <= x < |p.bytes| && i in s && i * p.room <= x < (i + 1) * p.room ==> e.buffer[x] == p.bytes[x])
  }

  ghost predicate Holding(p: Packet, s: set<nat>, e: Entry)
  {
    e.id == p.id && Contains(p, s, e)
  }

  ghost predicate Within(p: nat, s: set<nat>, done: set<(nat, nat)>)
  {
    forall i :: i in s ==> (p, i) in done
  }

  /** An active entry is explained by delivered frames of the last packet under its id, or was
      left open under that id from before the run. */
  ghost predicate Explained(sent: seq<Packet>, done: set<(nat, nat)>, own: Owners, e: Entry)
  {
    e.active && e.id in own ==>
      own[e.id] < |sent| && exists s :: Holding(sent[own[e.id]], s, e) && Within(own[e.id], s, done)
  }

  ghost predicate Invariant(sent: seq<Packet>, done: set<(nat, nat)>, own: Owners, t: seq<Entry>)
  {
    forall j :: 0 <= j < |t| ==> Explained(sent, done, own, t[j])
  }

  /** A frame of packet p meets no entry that another packet left open under its id. */
  ghost predicate Clear(t: seq<Entry>, own: Owners, id: nat, p: nat)
  {
    forall j :: 0 <= j < |t| && Holds(t[j], id) ==> id in own && own[id] == p
  }

  // ---------- Counting ----------

  lemma Times(n: int, m: nat)
    ensures (n + 1) * m == n * m + m && (n - 1) * m == n * m - m
  {
  }

  lemma CountedGrows(p: Packet, s: set<nat>, i: nat)
    requires Sendable(p) && i < Count(p) && i !in s
    ensures i * p.room < |p.bytes|
    ensures Counted(p, s + {i}) == Counted(p, s) + |Fragment(p, i).payload|
  {
    FragmentFits(p, i);
    Times(|s|, p.room);
    assert |s + {i}| == |s| + 1;
  }

  lemma {:induction false} SubsetSize(s: set<nat>, k: nat)
    requires forall i :: i in s ==> i < k
    ensures |s| <= k
    ensures |s| == k ==> forall i :: 0 <= i < k ==> i in s
  {
    if k > 0 {
      SubsetSize(s - {k - 1}, k - 1);
    } else {
      assert s == {};
    }
  }

  lemma CountedShort(p: Packet, s: set<nat>)
    requires Sendable(p) && Count(p) - 1 in s && |s| < Count(p)
    ensures Counted(p, s) < |p.bytes|
  {
    var k := Count(p);
    Tiling(|p.bytes|, p.room, k);
    Monotone(|s|, k - 1, p.room);
    Times(|s|, p.room);
    Times(k, p.room);
  }

  /** Byte counting never completes with a frame missing, padded or not. */
  lemma CountingIsSound(p: Packet, s: set<nat>)
    requires Sendable(p) && (forall i :: i in s ==> i < Count(p))
    requires Count(p) - 1 in s && Counted(p, s) >= |p.bytes|
    ensures forall i :: 0 <= i < Count(p) ==> i in s
  {
    SubsetSize(s, Count(p));
    if |s| < Count(p) {
      CountedShort(p, s);
    }
  }

  // ---------- One frame ----------

  /** An entry just opened for packet p: already holding frames s, or zeroed. */
  ghost predicate OpenFor(p: Packet, s: set<nat>, e: Entry)
  {
    Sendable(p) && (Contains(p, s, e) || (s == {} && e.expected == 0 && e.received == 0))
  }

  lemma FilledByte(p: Packet, s: set<nat>, e: Entry, i: nat, x: nat, k: nat)
    requires OpenFor(p, s, e) && i < Count(p) && x < |p.bytes|
    requires k in s + {i} && k * p.room <= x < (k + 1) * p.room
    requires i * p.room < |p.bytes| && i * p.room + |Fragment(p, i).payload| <= MAX_PACKET_SIZE
    ensures Filled(e, Fragment(p, i)).buffer[x] == p.bytes[x]
  {
    FragmentFits(p, i);
    Times(i, p.room);
    if i * p.room <= x < (i + 1) * p.room {
      FragmentByte(p, i, x);
    } else {
      assert k in s;
    }
  }

  lemma FilledHolds(p: Packet, s: set<nat>, e: Entry, i: nat)
    requires OpenFor(p, s, e) && i < Count(p) && i !in s
    ensures i * p.room < |p.bytes| && i * p.room + |Fragment(p, i).payload| <= MAX_PACKET_SIZE
    ensures Contains(p, s + {i}, Filled(e, Fragment(p, i)))
  {
    FragmentFits(p, i);
    CountedGrows(p, s, i);
    var g := Filled(e, Fragment(p, i));
    forall x, k | 0 <= x < |p.bytes| && k in s + {i} && k * p.room <= x < (k + 1) * p.room
      ensures g.buffer[x] == p.bytes[x]
    {
      FilledByte(p, s, e, i, x, k);
    }
  }

  /** An entry holding every frame holds the packet. */
  lemma HoldingAll(p: Packet, s: set<nat>, e: Entry)
    requires Contains(p, s, e) && (forall i :: 0 <= i < Count(p) ==> i in s)
    ensures e.buffer[..|p.bytes|] == p.bytes
  {
    forall x | 0 <= x < |p.bytes|
      ensures e.buffer[x] == p.bytes[x]
    {
      var i := TileIndex(p, x);
      assert i in s;
    }
  }

  /** A filled entry that passes the completion test holds all frames, the packet itself. */
  lemma CompleteSound(p: Packet, s: set<nat>, g: Entry, i: nat)
    requires Contains(p, s, g) && i < Count(p) && i in s
    requires i * p.room < |p.bytes| && Complete(g, Fragment(p, i))
    ensures i == Count(p) - 1 && g.buffer[..|p.bytes|] == p.bytes
    ensures forall k :: 0 <= k < Count(p) ==> k in s
  {
    FragmentRange(p, i);
    assert Fragment(p, i).header.flags == FLAG_FINAL;
    CountingIsSound(p, s);
    HoldingAll(p, s, g);
  }

  /** What a frame leaves in its entry, and that a completed entry is the packet itself. */
  lemma AbsorbSound(p: Packet, s: set<nat>, e: Entry, i: nat)
    requires OpenFor(p, s, e) && i < Count(p) && i !in s
    ensures i * p.room < |p.bytes|
    ensures var r := Absorb(e, Fragment(p, i));
            r.0.id == e.id && (r.0.active ==> Contains(p, s + {i}, r.0)) &&
            (r.1.Some? ==> r.1.value == p.bytes && i == Count(p) - 1 && forall k :: 0 <= k < Count(p) ==> k in s + {i})
  {
    FilledHolds(p, s, e, i);
    var f := Fragment(p, i);
    if Complete(Filled(e, f), f) {
      CompleteSound(p, s + {i}, Filled(e, f), i);
    }
  }

  /** Entries other than the one being filled stay explained. */
  lemma ExplainedLater(sent: seq<Packet>, done: set<(nat, nat)>, own: Owners, e: Entry, t: seq<Entry>, j: nat, p: nat, i: nat)
    requires Honest(sent) && j < |t| && e == t[j] && Explained(sent, done, own, e) && IsFrame(sent, p, i)
    requires Clear(t, own, sent[p].id, p)
    ensures Explained(sent, done + {(p, i)}, own[sent[p].id := p], e)
  {
    if e.active && e.id in own {
      var q := own[e.id];
      var s :| Holding(sent[q], s, e) && Within(q, s, done);
      assert e.id == sent[p].id ==> Holds(t[j], sent[p].id);
      assert Holding(sent[q], s, e) && Within(q, s, done + {(p, i)});
    }
  }

  /** The frames an opened slot already holds belong to the packet being delivered. */
  lemma OwnFrames(sent: seq<Packet>, done: set<(nat, nat)>, own: Owners, t: seq<Entry>, j: nat, p: nat, i: nat, now: int)
    returns (s: set<nat>)
    requires Honest(sent) && j < |t| && Explained(sent, done, own, t[j]) && IsFrame(sent, p, i) && (p, i) !in done
    requires Clear(t, own, sent[p].id, p)
    ensures OpenFor(sent[p], s, Opened(t[j], sent[p].id, now)) && i !in s
    ensures Within(p, s, done)
  {
    if Holds(t[j], sent[p].id) {
      s :| Holding(sent[p], s, t[j]) && Within(p, s, done);
      assert Contains(sent[p], s, Opened(t[j], sent[p].id, now));
    } else {
      s := {};
    }
  }

  /** One delivery keeps every entry explained and writes nothing but the packet it completes,
      all of whose frames have then been delivered. */
  lemma DeliverSound(sent: seq<Packet>, done: set<(nat, nat)>, own: Owners, t: seq<Entry>, p: nat, i: nat, now: int)
    requires Honest(sent) && Invariant(sent, done, own, t) && IsFrame(sent, p, i) && (p, i) !in done
    requires Clear(t, own, sent[p].id, p)
    ensures var r := Receive(t, FrameOf(sent, p, i), now);
            Invariant(sent, done + {(p, i)}, own[sent[p].id := p], r.0) &&
            (r.1.Some? ==> r.1.value == sent[p].bytes && i == Count(sent[p]) - 1 && AllIn(sent, done + {(p, i)}, p))
  {
    var f := FrameOf(sent, p, i);
    var id := sent[p].id;
    var j := SlotFor(t, id);
    var r := Receive(t, f, now);
    var more := done + {(p, i)};
    var owns := own[id := p];
    forall k | 0 <= k < |t| && k != j
      ensures Explained(sent, more, owns, r.0[k])
    {
      ExplainedLater(sent, done, own, t[k], t, k, p, i);
    }
    if j < |t| {
      var s := OwnFrames(sent, done, own, t, j, p, i, now);
      AbsorbSound(sent[p], s, Opened(t[j], id, now), i);
      assert r.0[j].active ==> Holding(sent[p], s + {i}, r.0[j]);
      assert Within(p, s + {i}, more);
    }
  }

  /** Every frame of packet p has been delivered. */
  ghost predicate AllIn(sent: seq<Packet>, done: set<(nat, nat)>, p: nat)
    requires Honest(sent) && p < |sent|
  {
    forall k :: 0 <= k < Count(sent[p]) ==> (p, k) in done
  }

  /** Zeroing any slots, expired or not, keeps every entry explained. */
  lemma WipeSound(sent: seq<Packet>, done: set<(nat, nat)>, own: Owners, t: seq<Entry>, u: seq<Entry>)
    requires Invariant(sent, done, own, t) && |u| == |t|
    requires forall j :: 0 <= j < |t| ==> u[j] == t[j] || u[j] == EMPTY
    ensures Invariant(sent, done, own, u)
  {
  }

  // ---------- One slot per id ----------

  ghost predicate Unique(t: seq<Entry>)
  {
    forall j, k :: 0 <= j < k < |t| && t[j].active && t[k].active ==> t[j].id != t[k].id
  }

  /** No slot of the table is open for the id. */
  ghost predicate Vacant(t: seq<Entry>, id: nat) { forall j :: 0 <= j < |t| ==> !Holds(t[j], id) }

  lemma FirstIsOnly(t: seq<Entry>, id: nat, k: nat)
    requires Unique(t) && k < |t| && Holds(t[k], id)
    ensures SlotFor(t, id) == k
  {
    assert FirstHolding(t, id) <= k;
  }

  /** What a delivery does to the slots: only one with its id changes, and it stays open only
      when nothing is written. */
  lemma ReceiveSlots(t: seq<Entry>, f: Frame, now: int)
    requires Unique(t)
    ensures var r, id := Receive(t, f, now), f.header.packetId;
            Unique(r.0) &&
            (forall k :: 0 <= k < |t| && t[k].active && t[k].id != id ==> r.0[k] == t[k]) &&
            (forall k :: 0 <= k < |t| && r.0[k].active && r.0[k].id != id ==> r.0[k] == t[k]) &&
            (forall k :: 0 <= k < |t| && Holds(r.0[k], id) ==> r.0[k].lastActivity == now && r.1.None?)
  {
    var id := f.header.packetId;
    var j := SlotFor(t, id);
    forall k | 0 <= k < |t| && Holds(t[k], id)
      ensures k == j
    {
      FirstIsOnly(t, id, k);
    }
  }

  // ---------- Whole runs ----------

  ghost predicate Admissible(sent: seq<Packet>, events: seq<Event>)
    requires Honest(sent)
  {
    && (forall n :: 0 <= n < |events| && events[n].Deliver? ==> IsFrame(sent, events[n].p, events[n].i))
    && (forall a, b :: 0 <= a < b < |events| && events[a].Deliver? && events[b].Deliver?
          ==> (events[a].p, events[a].i) != (events[b].p, events[b].i))
  }

  ghost function Delivered(events: seq<Event>): set<(nat, nat)>
  {
    set n | 0 <= n < |events| && events[n].Deliver? :: (events[n].p, events[n].i)
  }

  /** Table and TUN writes after a run; each write is tagged with the packet being delivered. */
  ghost function Run(sent: seq<Packet>, events: seq<Event>, t: seq<Entry>): (r: (seq<Entry>, seq<(nat, seq<byte>)>))
    requires Honest(sent) && Admissible(sent, events)
  {
    if events == [] then (t, [])
    else
      var n := |events| - 1;
      var before := Run(sent, events[..n], t);
      match events[n]
      case SweepAt(now) => (Sweep(before.0, now), before.1)
      case WipeAt(j) => (Wipe(before.0, j), before.1)
      case Deliver(p, i, now) =>
        var r := Receive(before.0, FrameOf(sent, p, i), now);
        (r.0, if r.1.Some? then before.1 + [(p, r.1.value)] else before.1)
  }

  ghost function OwnersOf(sent: seq<Packet>, events: seq<Event>): Owners
    requires Honest(sent) && Admissible(sent, events)
  {
    if events == [] then map[]
    else
      var n := |events| - 1;
      var before := OwnersOf(sent, events[..n]);
      if events[n].Deliver? then before[sent[events[n].p].id := events[n].p] else before
  }

  /** No frame of the run is put into an entry that a different packet of the same id left
      open: at every delivery the id has no open entry, or its last frame was the same packet's. */
  ghost predicate NoMixing(sent: seq<Packet>, events: seq<Event>, t: seq<Entry>)
    requires Honest(sent) && Admissible(sent, events)
  {
    events == [] ||
    var n := |events| - 1;
    NoMixing(sent, events[..n], t) &&
    (events[n].Deliver? ==>
       Clear(Run(sent, events[..n], t).0, OwnersOf(sent, events[..n]), sent[events[n].p].id, events[n].p))
  }

  ghost predicate WritesSound(sent: seq<Packet>, done: set<(nat, nat)>, writes: seq<(nat, seq<byte>)>)
    requires Honest(sent)
  {
    && (forall n :: 0 <= n < |writes| ==>
          writes[n].0 < |sent| && writes[n].1 == sent[writes[n].0].bytes && AllIn(sent, done, writes[n].0))
    && (forall a, b :: 0 <= a < b < |writes| ==> writes[a].0 != writes[b].0)
  }

  lemma DeliveredOne(events: seq<Event>)
    requires events != []
    ensures var n := |events| - 1;
            Delivered(events) == Delivered(events[..n]) +
              if events[n].Deliver? then {(events[n].p, events[n].i)} else {}
  {
  }

  lemma WriteAppended(sent: seq<Packet>, done: set<(nat, nat)>, writes: seq<(nat, seq<byte>)>, p: nat, i: nat, out: Option<seq<byte>>)
    requires Honest(sent) && WritesSound(sent, done, writes) && IsFrame(sent, p, i) && (p, i) !in done
    requires out.Some? ==> out.value == sent[p].bytes && AllIn(sent, done + {(p, i)}, p)
    ensures out.None? ==> WritesSound(sent, done + {(p, i)}, writes)
    ensures out.Some? ==> WritesSound(sent, done + {(p, i)}, writes + [(p, out.value)])
  {
  }

  lemma {:induction false} RunNext(sent: seq<Packet>, events: seq<Event>, e: Event, t: seq<Entry>)
    requires Honest(sent) && Admissible(sent, events + [e])
    ensures Admissible(sent, events) && (e.Deliver? ==> IsFrame(sent, e.p, e.i))
    ensures var before, after := Run(sent, events, t), Run(sent, events + [e], t);
            match e
            case SweepAt(now) => after.0 == Sweep(before.0, now) && after.1 == before.1
            case WipeAt(j) => after.0 == Wipe(before.0, j) && after.1 == before.1
            case Deliver(p, i, now) =>
              var r := Receive(before.0, FrameOf(sent, p, i), now);
              after.0 == r.0 && after.1 == if r.1.Some? then before.1 + [(p, r.1.value)] else before.1
  {
    assert (events + [e])[..|events|] == events && (events + [e])[|events|] == e;
  }

  /** Reassembly safety: started from any table, whatever an earlier session left open in it,
      everything a run without mixing writes to TUN is byte for byte a packet that was sent, all
      of whose frames had been delivered, and no packet is written twice. */
  lemma {:induction false} RunSound(sent: seq<Packet>, events: seq<Event>, t: seq<Entry>)
    requires Honest(sent) && Admissible(sent, events) && NoMixing(sent, events, t)
    ensures var r := Run(sent, events, t);
            Invariant(sent, Delivered(events), OwnersOf(sent, events), r.0) && WritesSound(sent, Delivered(events), r.1)
  {
    if events != [] {
      var n := |events| - 1;
      var init := events[..n];
      var done, own := Delivered(init), OwnersOf(sent, init);
      RunSound(sent, init, t);
      DeliveredOne(events);
      var before := Run(sent, init, t);
      match events[n] {
        case SweepAt(now) =>
          WipeSound(sent, done, own, before.0, Sweep(before.0, now));
        case WipeAt(j) =>
          WipeSound(sent, done, own, before.0, Wipe(before.0, j));
        case Deliver(p, i, now) =>
          assert (p, i) !in done;
          DeliverSound(sent, done, own, before.0, p, i, now);
          WriteAppended(sent, done, before.1, p, i, Receive(before.0, FrameOf(sent, p, i), now).1);
      }
    }
  }

  /** No entry of the table is open under an id the sender uses. */
  ghost predicate NoneLeft(sent: seq<Packet>, t: seq<Entry>)
  {
    forall p :: 0 <= p < |sent| ==> Vacant(t, sent[p].id)
  }

  /** An entry open after a run was opened by it, or was open before under the same id. */
  lemma {:induction false} OpenIds(sent: seq<Packet>, events: seq<Event>, t: seq<Entry>, j: nat)
    requires Honest(sent) && Admissible(sent, events) && j < |Run(sent, events, t).0| && Run(sent, events, t).0[j].active
    ensures var id, own := Run(sent, events, t).0[j].id, OwnersOf(sent, events);
            (id in own ==> own[id] < |sent| && sent[own[id]].id == id) && (id !in own ==> !Vacant(t, id))
  {
    var id := Run(sent, events, t).0[j].id;
    OwnersReal(sent, events, id);
    if events == [] {
      assert Holds(t[j], id);
    } else {
      var n := |events| - 1;
      var u := Run(sent, events[..n], t).0;
      if u[j].active && u[j].id == id { OpenIds(sent, events[..n], t, j); }
    }
  }

  lemma {:induction false} OwnersReal(sent: seq<Packet>, events: seq<Event>, id: nat)
    requires Honest(sent) && Admissible(sent, events)
    ensures var own := OwnersOf(sent, events); id in own ==> own[id] < |sent| && sent[own[id]].id == id
  {
    if events != [] { OwnersReal(sent, events[..|events| - 1], id); }
  }

  /** With no id used twice, and none of them left open from before, there is never any mixing. */
  lemma {:induction false} ApartNeverMix(sent: seq<Packet>, events: seq<Event>, t: seq<Entry>)
    requires Honest(sent) && Admissible(sent, events) && IdsApart(sent) && NoneLeft(sent, t)
    ensures NoMixing(sent, events, t)
  {
    if events != [] {
      var n := |events| - 1;
      ApartNeverMix(sent, events[..n], t);
      var u := Run(sent, events[..n], t).0;
      forall j | 0 <= j < |u| && u[j].active
        ensures var id, own := u[j].id, OwnersOf(sent, events[..n]);
                (id in own ==> own[id] < |sent| && sent[own[id]].id == id) && (id !in own ==> !Vacant(t, id))
      {
        OpenIds(sent, events[..n], t, j);
      }
    }
  }

  lemma {:induction false} RunUnique(sent: seq<Packet>, events: seq<Event>, t: seq<Entry>)
    requires Honest(sent) && Admissible(sent, events) && Unique(t)
    ensures Unique(Run(sent, events, t).0) && |Run(sent, events, t).0| == |t|
  {
    if events != [] {
      var n := |events| - 1;
      RunUnique(sent, events[..n], t);
      var e := events[n];
      if e.Deliver? {
        ReceiveSlots(Run(sent, events[..n], t).0, FrameOf(sent, e.p, e.i), e.now);
      }
    }
  }
}
