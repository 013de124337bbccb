/** The reassembly code of one session cut into its steps: pick a slot, stamp it, set the
    expected length, copy, count, test for completion, read the length, write to TUN and close.
    The maintenance sweep zeroes slots from another thread without a lock, so a wipe may land
    between any two of them. */
module StoreSteps {
  import opened Frames
  import opened Fragments
  import opened Reassembly
  import opened ReassemblySafety
  import opened DataPath

  /** Where the worker stands with frame f, sequence number s, in slot j. */
  datatype Busy =
    | Resting
    | Picked(s: nat, f: Frame, j: nat, now: int)
    | Found(s: nat, f: Frame, j: nat)
    | Measured(s: nat, f: Frame, j: nat)
    | Copied(s: nat, f: Frame, j: nat)
    | FilledIn(s: nat, f: Frame, j: nat)
    | Tested(s: nat, f: Frame, j: nat)
    | Sending(s: nat, f: Frame, j: nat, n: nat)

  datatype Store = Store(table: seq<Entry>, busy: Busy, writes: seq<Write>)

  /** The slot as it is picked: an open entry as it is, a free one zeroed and claimed. */
  function Claimed(e: Entry, id: nat): Entry { if Holds(e, id) then e else EMPTY.(active := true, id := id) }

  /** `find_or_create_entry` up to its time stamp; control frames and a full table end the
      handling here. */
  function Begin(st: Store, s: nat, f: Frame, now: int): Store
  {
    var j := SlotFor(st.table, f.header.packetId);
    if IsControl(f) || j == |st.table| then st
    else st.(table := st.table[j := Claimed(st.table[j], f.header.packetId)], busy := Picked(s, f, j, now))
  }

  /** In the pool too, a keepalive, disconnect or cover frame never reaches the table. */
  lemma ControlStops(st: Store, s: nat, f: Frame, now: int)
    requires f.header.flags in {0x02, 0x03, 0xFF}
    ensures Begin(st, s, f, now) == st
  {
  }

  predicate Fits(f: Frame) { f.header.offset + |f.payload| <= MAX_PACKET_SIZE }

  // The three statements of the fill.

  function LengthSet(e: Entry, f: Frame): Entry { if e.expected == 0 then e.(expected := f.header.totalLen) else e }

  function BytesCopied(e: Entry, f: Frame): Entry
    requires Fits(f)
  {
    e.(buffer := Splice(e.buffer, f.header.offset, f.payload))
  }

  function BytesCounted(e: Entry, f: Frame): Entry { e.(received := e.received + |f.payload|) }

  function Clamp(n: nat): nat { if n <= MAX_PACKET_SIZE then n else MAX_PACKET_SIZE }

  /** The worker's next step after the find; a wipe in between goes unnoticed. */
  function Next(st: Store): Store
  {
    if st.busy.Resting? || st.busy.j >= |st.table| then st.(busy := Resting)
    else
      var j := st.busy.j;
      var e := st.table[j];
      match st.busy
      case Picked(s, f, _, now) => Store(st.table[j := e.(lastActivity := now)], Found(s, f, j), st.writes)
      case Found(s, f, _) =>
        if !Fits(f) then Store(st.table[j := e.(active := false)], Resting, st.writes)
        else Store(st.table[j := LengthSet(e, f)], Measured(s, f, j), st.writes)
      case Measured(s, f, _) =>
        if !Fits(f) then st.(busy := Resting) else Store(st.table[j := BytesCopied(e, f)], Copied(s, f, j), st.writes)
      case Copied(s, f, _) => Store(st.table[j := BytesCounted(e, f)], FilledIn(s, f, j), st.writes)
      case FilledIn(s, f, _) => st.(busy := if Complete(e, f) then Tested(s, f, j) else Resting)
      case Tested(s, f, _) => st.(busy := Sending(s, f, j, Clamp(e.expected)))
      case Sending(s, f, _, n) => Store(st.table[j := e.(active := false)], Resting, st.writes + [Write(s, e.buffer[..Clamp(n)])])
  }

  function Rank(b: Busy): nat
  {
    match b
    case Resting => 0
    case Sending(_, _, _, _) => 1
    case Tested(_, _, _) => 2
    case FilledIn(_, _, _) => 3
    case Copied(_, _, _) => 4
    case Measured(_, _, _) => 5
    case Found(_, _, _) => 6
    case Picked(_, _, _, _) => 7
  }

  /** The worker's remaining steps with nothing in between. */
  function Finished(st: Store): Store
    decreases Rank(st.busy)
  {
    if st.busy.Resting? then st else Finished(Next(st))
  }

  function WipeStore(st: Store, j: nat): Store { st.(table := Wipe(st.table, j)) }

  /** A wipe of the slot the worker is busy with. */
  predicate Hits(st: Store, j: nat) { !st.busy.Resting? && st.busy.j == j }

  // ---------- Alone, the steps are the receive step ----------

  lemma {:induction false} FinishedSteps(st: Store)
    ensures !st.busy.Resting? ==> Finished(st) == Finished(Next(st))
    ensures st.busy.Resting? ==> Finished(st) == st
    ensures Finished(st).busy.Resting?
    decreases Rank(st.busy)
  {
    if !st.busy.Resting? { FinishedSteps(Next(st)); }
  }

  /** The fill in one piece. */
  lemma FillFinishes(st: Store)
    requires st.busy.Found? && st.busy.j < |st.table| && Fits(st.busy.f)
    ensures var s, f, j := st.busy.s, st.busy.f, st.busy.j;
            Finished(st) == Finished(Store(st.table[j := Filled(st.table[j], f)], FilledIn(s, f, j), st.writes))
  {
    var f, j := st.busy.f, st.busy.j;
    FinishedSteps(st);
    FinishedSteps(Next(st));
    FinishedSteps(Next(Next(st)));
    assert Next(Next(Next(st))).table == st.table[j := Filled(st.table[j], f)];
  }

  /** From the completion test on. */
  lemma FilledFinishes(st: Store)
    requires st.busy.FilledIn? && st.busy.j < |st.table|
    ensures var s, f, j, e := st.busy.s, st.busy.f, st.busy.j, st.table[st.busy.j];
            Finished(st) == if Complete(e, f)
                            then Store(st.table[j := e.(active := false)], Resting, st.writes + [Write(s, e.buffer[..Clamp(e.expected)])])
                            else st.(busy := Resting)
  {
    FinishedSteps(st);
    FinishedSteps(Next(st));
    FinishedSteps(Next(Next(st)));
    FinishedSteps(Next(Next(Next(st))));
  }

  lemma FoundFinishes(st: Store)
    requires st.busy.Found? && st.busy.j < |st.table|
    ensures var a := Absorb(st.table[st.busy.j], st.busy.f);
            Finished(st) == Store(st.table[st.busy.j := a.0], Resting, if a.1.Some? then st.writes + [Write(st.busy.s, a.1.value)] else st.writes)
  {
    var s, f, j := st.busy.s, st.busy.f, st.busy.j;
    FinishedSteps(st);
    if Fits(f) {
      FillFinishes(st);
      FilledFinishes(Store(st.table[j := Filled(st.table[j], f)], FilledIn(s, f, j), st.writes));
    } else {
      FinishedSteps(Next(st));
    }
  }

  /** From the find on, undisturbed, the frame is handled as in one piece. */
  lemma BeginFinishes(st: Store, s: nat, f: Frame, now: int)
    requires st.busy.Resting?
    ensures Finished(Begin(st, s, f, now)) == Store(Stored(st.table, f, now), Resting, Written(st.writes, st.table, f, now, s))
  {
    var id := f.header.packetId;
    var j := SlotFor(st.table, id);
    if !IsControl(f) && j < |st.table| {
      var a := Begin(st, s, f, now);
      FinishedSteps(a);
      assert Next(a) == Store(st.table[j := Opened(st.table[j], id, now)], Found(s, f, j), st.writes);
      FoundFinishes(Next(a));
    }
  }

  /** From the pick through the count, step by step. */
  lemma PickedToFilled(st: Store)
    requires st.busy.Picked? && st.busy.j < |st.table| && Fits(st.busy.f)
    ensures var s, f, j := st.busy.s, st.busy.f, st.busy.j;
            Next(Next(Next(Next(st)))) ==
            Store(st.table[j := Filled(st.table[j].(lastActivity := st.busy.now), f)], FilledIn(s, f, j), st.writes)
  {
    var f, j, e := st.busy.f, st.busy.j, st.table[st.busy.j].(lastActivity := st.busy.now);
    assert Next(Next(Next(st))).table == st.table[j := BytesCopied(LengthSet(e, f), f)];
    assert BytesCounted(BytesCopied(LengthSet(e, f), f), f) == Filled(e, f);
  }

  lemma NextWipe(st: Store, k: nat)
    requires !Hits(st, k)
    ensures Next(WipeStore(st, k)) == WipeStore(Next(st), k) && !Hits(Next(st), k)
  {
  }

  /** A wipe of any other slot commutes with the rest of the handling. */
  lemma {:induction false} FinishedWipe(st: Store, k: nat)
    requires !Hits(st, k)
    ensures Finished(WipeStore(st, k)) == WipeStore(Finished(st), k)
    decreases Rank(st.busy)
  {
    if !st.busy.Resting? {
      NextWipe(st, k);
      FinishedWipe(Next(st), k);
    }
  }

  // ---------- What each step keeps ----------

  /** Frame f is the data frame sealed under s. */
  ghost predicate IsItem(sent: seq<Packet>, wire: seq<Item>, s: nat, f: Frame)
    requires Stream(sent, wire)
  {
    s < |wire| && wire[s].DataItem? && f == FrameAt(sent, wire, s)
  }

  /** The entry's buffer and counters hold frame i, and delivered frames of packet p only. */
  ghost predicate HoldsFrame(sent: seq<Packet>, done: set<(nat, nat)>, p: nat, i: nat, e: Entry)
    requires Honest(sent) && IsFrame(sent, p, i)
  {
    exists s :: Contains(sent[p], s, e) && i in s && Within(p, s, done)
  }

  /** The entry the worker is busy with, for frame i of packet p: what it holds before the fill,
      and what it will hold once the rest of the fill is done; a wiped entry may stay empty
      where no write can follow. */
  ghost predicate SlotOk(sent: seq<Packet>, done: set<(nat, nat)>, b: Busy, p: nat, i: nat, e: Entry)
    requires Honest(sent) && IsFrame(sent, p, i)
  {
    && (e.active ==> e.id == sent[p].id)
    && match b
       case Resting => true
       case Picked(_, _, _, _) => exists s :: OpenFor(sent[p], s, e) && i !in s && Within(p, s, done)
       case Found(_, _, _) => exists s :: OpenFor(sent[p], s, e) && i !in s && Within(p, s, done)
       case Measured(_, f, _) => Fits(f) && (IsFinal(f) || e.active ==> HoldsFrame(sent, done, p, i, BytesCounted(BytesCopied(e, f), f)))
       case Copied(_, f, _) => IsFinal(f) || e.active ==> HoldsFrame(sent, done, p, i, BytesCounted(e, f))
       case FilledIn(_, f, _) => IsFinal(f) || e.active ==> HoldsFrame(sent, done, p, i, e)
       case Tested(_, _, _) => i == Count(sent[p]) - 1 && e.expected == |sent[p].bytes| && e.buffer[..|sent[p].bytes|] == sent[p].bytes
       case Sending(_, _, _, n) => i == Count(sent[p]) - 1 && n == |sent[p].bytes| && e.buffer[..n] == sent[p].bytes
  }

  ghost predicate BusyOk(sent: seq<Packet>, wire: seq<Item>, done: set<(nat, nat)>, own: Owners, st: Store)
    requires Stream(sent, wire)
  {
    !st.busy.Resting? ==>
      && IsItem(sent, wire, st.busy.s, st.busy.f) && st.busy.j < |st.table|
      && var p, i := wire[st.busy.s].p, wire[st.busy.s].i;
         (p, i) in done && sent[p].id in own && own[sent[p].id] == p && SlotOk(sent, done, st.busy, p, i, st.table[st.busy.j])
  }

  /** All entries the worker is not busy with are explained, and the busy one is in order. */
  ghost predicate StoreOk(sent: seq<Packet>, wire: seq<Item>, done: set<(nat, nat)>, own: Owners, st: Store)
    requires Stream(sent, wire)
  {
    && BusyOk(sent, wire, done, own, st)
    && forall k :: 0 <= k < |st.table| && !Hits(st, k) ==> Explained(sent, done, own, st.table[k])
  }

  ghost predicate AllSound(sent: seq<Packet>, wire: seq<Item>, writes: seq<Write>)
    requires Stream(sent, wire)
  {
    forall n :: 0 <= n < |writes| ==> WriteSound(sent, wire, writes[n])
  }

  /** The find keeps order as long as it meets no entry of another packet. */
  lemma BeginOk(sent: seq<Packet>, wire: seq<Item>, done: set<(nat, nat)>, own: Owners, st: Store, s: nat, now: int)
    requires Stream(sent, wire) && StoreOk(sent, wire, done, own, st) && st.busy.Resting?
    requires s < |wire| && wire[s].DataItem? && (wire[s].p, wire[s].i) !in done
    requires Clear(st.table, own, sent[wire[s].p].id, wire[s].p)
    ensures var p := wire[s].p;
            StoreOk(sent, wire, done + {(p, wire[s].i)}, own[sent[p].id := p], Begin(st, s, FrameAt(sent, wire, s), now))
  {
    var p, i, f := wire[s].p, wire[s].i, FrameAt(sent, wire, s);
    var id, j, t := sent[p].id, SlotFor(st.table, sent[p].id), st.table;
    FrameKind(sent, wire, s);
    forall k | 0 <= k < |t|
      ensures Explained(sent, done + {(p, i)}, own[id := p], t[k])
    {
      ExplainedLater(sent, done, own, t[k], t, k, p, i);
    }
    if j < |t| {
      var have := OwnFrames(sent, done, own, t, j, p, i, now);
      assert Within(p, have, done + {(p, i)});
    }
  }

  lemma PickedOk(sent: seq<Packet>, wire: seq<Item>, done: set<(nat, nat)>, own: Owners, st: Store)
    requires Stream(sent, wire) && StoreOk(sent, wire, done, own, st) && st.busy.Picked?
    ensures StoreOk(sent, wire, done, own, Next(st))
  {
    var p, i, j := wire[st.busy.s].p, wire[st.busy.s].i, st.busy.j;
    var s :| OpenFor(sent[p], s, st.table[j]) && i !in s && Within(p, s, done);
    assert OpenFor(sent[p], s, Next(st).table[j]);
  }

  lemma FoundOk(sent: seq<Packet>, wire: seq<Item>, done: set<(nat, nat)>, own: Owners, st: Store)
    requires Stream(sent, wire) && StoreOk(sent, wire, done, own, st) && st.busy.Found?
    ensures StoreOk(sent, wire, done, own, Next(st))
  {
    var p, i, j, f := wire[st.busy.s].p, wire[st.busy.s].i, st.busy.j, st.busy.f;
    var e := st.table[j];
    var s :| OpenFor(sent[p], s, e) && i !in s && Within(p, s, done);
    FilledHolds(sent[p], s, e, i);
    assert Within(p, s + {i}, done);
    assert BytesCounted(BytesCopied(LengthSet(e, f), f), f) == Filled(e, f);
    assert HoldsFrame(sent, done, p, i, Filled(e, f));
  }

  lemma FillingOk(sent: seq<Packet>, wire: seq<Item>, done: set<(nat, nat)>, own: Owners, st: Store)
    requires Stream(sent, wire) && StoreOk(sent, wire, done, own, st) && (st.busy.Measured? || st.busy.Copied?)
    ensures StoreOk(sent, wire, done, own, Next(st))
  {
  }

  lemma FilledOk(sent: seq<Packet>, wire: seq<Item>, done: set<(nat, nat)>, own: Owners, st: Store)
    requires Stream(sent, wire) && StoreOk(sent, wire, done, own, st) && st.busy.FilledIn?
    ensures StoreOk(sent, wire, done, own, Next(st))
  {
    var p, i, j, f := wire[st.busy.s].p, wire[st.busy.s].i, st.busy.j, st.busy.f;
    if IsFinal(f) || st.table[j].active {
      assert HoldsFrame(sent, done, p, i, st.table[j]);
      var s :| Contains(sent[p], s, st.table[j]) && i in s && Within(p, s, done);
      if Complete(st.table[j], f) {
        FragmentRange(sent[p], i);
        CompleteSound(sent[p], s, st.table[j], i);
      } else if st.table[j].active {
        assert Holding(sent[p], s, st.table[j]);
      }
    }
  }

  /** Every step of the worker keeps order, and the one that writes, writes the packet. */
  lemma NextOk(sent: seq<Packet>, wire: seq<Item>, done: set<(nat, nat)>, own: Owners, st: Store)
    requires Stream(sent, wire) && StoreOk(sent, wire, done, own, st) && AllSound(sent, wire, st.writes)
    ensures StoreOk(sent, wire, done, own, Next(st)) && AllSound(sent, wire, Next(st).writes)
  {
    match st.busy {
      case Picked(_, _, _, _) => PickedOk(sent, wire, done, own, st);
      case Found(_, _, _) => FoundOk(sent, wire, done, own, st);
      case Measured(_, _, _) => FillingOk(sent, wire, done, own, st);
      case Copied(_, _, _) => FillingOk(sent, wire, done, own, st);
      case FilledIn(_, _, _) => FilledOk(sent, wire, done, own, st);
      case _ =>
    }
  }

  ghost predicate AllZero(bytes: seq<byte>) { forall x :: 0 <= x < |bytes| ==> bytes[x] == 0 }

  /** Where a wipe of the busy slot does harm: from where the fill of a final frame sets the
      expected length up to the write. */
  predicate Harmful(st: Store, j: nat)
  {
    Hits(st, j) && !st.busy.Picked? && !st.busy.Found? &&
    (st.busy.Measured? || st.busy.Copied? || st.busy.FilledIn? ==> IsFinal(st.busy.f))
  }

  /** Every other wipe keeps order, also one that takes the busy slot away. */
  lemma WipeOk(sent: seq<Packet>, wire: seq<Item>, done: set<(nat, nat)>, own: Owners, st: Store, j: nat)
    requires Stream(sent, wire) && StoreOk(sent, wire, done, own, st) && !Harmful(st, j)
    ensures StoreOk(sent, wire, done, own, WipeStore(st, j))
  {
    if Hits(st, j) && (st.busy.Picked? || st.busy.Found?) {
      var p, i := wire[st.busy.s].p, wire[st.busy.s].i;
      assert OpenFor(sent[p], {}, EMPTY) && i !in {} && Within(p, {}, done);
    }
  }

  lemma {:induction false} FinishedOk(sent: seq<Packet>, wire: seq<Item>, done: set<(nat, nat)>, own: Owners, st: Store)
    requires Stream(sent, wire) && StoreOk(sent, wire, done, own, st) && AllSound(sent, wire, st.writes)
    ensures AllSound(sent, wire, Finished(st).writes)
    decreases Rank(st.busy)
  {
    if !st.busy.Resting? {
      NextOk(sent, wire, done, own, st);
      FinishedOk(sent, wire, done, own, Next(st));
    }
  }

  /** What a harmful wipe makes of the write: nothing at all, or zeros once the length is read. */
  lemma HarmDone(st: Store, j: nat)
    requires Harmful(st, j) && j < |st.table| && (st.busy.Measured? ==> Fits(st.busy.f))
    ensures Finished(WipeStore(st, j)).writes ==
            st.writes + [Write(st.busy.s, if st.busy.Sending? then Zeros(MAX_PACKET_SIZE)[..Clamp(st.busy.n)] else [])]
  {
    var a := WipeStore(st, j);
    FinishedSteps(a);
    if st.busy.Sending? {
      assert a.table[j] == EMPTY;
      FinishedSteps(Next(a));
    } else {
      EmptyWrite(a);
    }
  }

  /** A final frame whose entry expects nothing is written as an empty packet. */
  lemma {:induction false} EmptyWrite(st: Store)
    requires st.busy.Measured? || st.busy.Copied? || st.busy.FilledIn? || st.busy.Tested?
    requires st.busy.j < |st.table| && st.table[st.busy.j].expected == 0
    requires (st.busy.Measured? ==> Fits(st.busy.f)) && (!st.busy.Tested? ==> IsFinal(st.busy.f))
    ensures Finished(st).writes == st.writes + [Write(st.busy.s, [])]
    decreases Rank(st.busy)
  {
    FinishedSteps(st);
    if st.busy.Tested? {
      FinishedSteps(Next(st));
      FinishedSteps(Next(Next(st)));
      assert st.table[st.busy.j].buffer[..0] == [];
    } else {
      EmptyWrite(Next(st));
    }
  }

  /** The race, exactly: after a wipe the handling in progress writes only packets that were
      sent if and only if the wipe does not land between the setting of a final frame's expected
      length and its write, except that zeros sent once the length was read may replace a packet
      of zeros. */
  lemma WipeSafeIff(sent: seq<Packet>, wire: seq<Item>, done: set<(nat, nat)>, own: Owners, st: Store, j: nat)
    requires Stream(sent, wire) && StoreOk(sent, wire, done, own, st) && AllSound(sent, wire, st.writes)
    ensures AllSound(sent, wire, Finished(WipeStore(st, j)).writes) <==>
            !Harmful(st, j) || (st.busy.Sending? && AllZero(sent[wire[st.busy.s].p].bytes))
  {
    if !Harmful(st, j) {
      WipeOk(sent, wire, done, own, st, j);
      FinishedOk(sent, wire, done, own, WipeStore(st, j));
    } else {
      HarmDone(st, j);
      var bytes := sent[wire[st.busy.s].p].bytes;
      var after := Finished(WipeStore(st, j)).writes;
      var w := after[|st.writes|];
      assert after[..|st.writes|] == st.writes;
      assert WriteSound(sent, wire, w) <==> w.bytes == bytes;
      assert st.busy.Sending? ==> |w.bytes| == |bytes| && forall x :: 0 <= x < |bytes| ==> w.bytes[x] == 0;
    }
  }
}
