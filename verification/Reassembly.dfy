/** The receiver's reassembly table: fixed slots, found by packet id, filled in place,
    counted in bytes and expired by age. */
module Reassembly {
  import opened Frames

  /** The fixed reassembly buffer of an entry. */
  type Buffer = b: seq<byte> | |b| == MAX_PACKET_SIZE witness Zeros(MAX_PACKET_SIZE)

  datatype Entry = Entry(active: bool, id: nat, lastActivity: int, expected: nat, received: nat, buffer: Buffer)

  const EMPTY: Entry := Entry(false, 0, 0, 0, 0, Zeros(MAX_PACKET_SIZE))

  predicate Holds(e: Entry, id: nat) { e.active && e.id == id }

  /** First slot from i on that is active for the id, or the length of the table. */
  function HoldingFrom(t: seq<Entry>, id: nat, i: nat): (j: nat)
    requires i <= |t|
    ensures i <= j <= |t| && (j < |t| ==> Holds(t[j], id))
    ensures forall k :: i <= k < j ==> !Holds(t[k], id)
    decreases |t| - i
  {
    if i == |t| || Holds(t[i], id) then i else HoldingFrom(t, id, i + 1)
  }

  function FirstHolding(t: seq<Entry>, id: nat): (j: nat)
    ensures j <= |t|
  {
    HoldingFrom(t, id, 0)
  }

  function FreeFrom(t: seq<Entry>, i: nat): (j: nat)
    requires i <= |t|
    ensures i <= j <= |t| && (j < |t| ==> !t[j].active)
    ensures forall k :: i <= k < j ==> t[k].active
    decreases |t| - i
  {
    if i == |t| || !t[i].active then i else FreeFrom(t, i + 1)
  }

  function FirstFree(t: seq<Entry>): (j: nat)
    ensures j <= |t|
  {
    FreeFrom(t, 0)
  }

  /** The slot `find_or_create_entry` returns; the length of the table when it is full. */
  function SlotFor(t: seq<Entry>, id: nat): (j: nat)
    ensures j <= |t|
  {
    if FirstHolding(t, id) < |t| then FirstHolding(t, id) else FirstFree(t)
  }

  /** The entry as `find_or_create_entry` leaves it. */
  function Opened(e: Entry, id: nat, now: int): Entry
  {
    if Holds(e, id) then e.(lastActivity := now)
    else EMPTY.(active := true, id := id, lastActivity := now)
  }

  function Splice(buffer: Buffer, offset: nat, payload: seq<byte>): Buffer
    requires offset + |payload| <= MAX_PACKET_SIZE
  {
    buffer[..offset] + payload + buffer[offset + |payload|..]
  }

  predicate IsFinal(f: Frame) { (f.header.flags / FLAG_MORE) % 2 == 0 }

  /** The entry after copying a payload and counting its bytes. */
  function Filled(e: Entry, f: Frame): Entry
    requires f.header.offset + |f.payload| <= MAX_PACKET_SIZE
  {
    e.(expected := if e.expected == 0 then f.header.totalLen else e.expected,
       buffer := Splice(e.buffer, f.header.offset, f.payload),
       received := e.received + |f.payload|)
  }

  predicate Complete(e: Entry, f: Frame) { IsFinal(f) && e.received >= e.expected }

  /** What one data frame does to its entry and what it writes to TUN. */
  function Absorb(e: Entry, f: Frame): (Entry, Option<seq<byte>>)
  {
    if f.header.offset + |f.payload| > MAX_PACKET_SIZE then (e.(active := false), None)
    else
      var g := Filled(e, f);
      if !Complete(g, f) then (g, None)
      else (g.(active := false), Some(g.buffer[..if g.expected <= MAX_PACKET_SIZE then g.expected else MAX_PACKET_SIZE]))
  }

  /** What one frame does to its entry, byte by byte: reaching past byte 2500 closes it; else the
      length is kept or taken from the frame, the payload lands at its offset and is counted,
      and the entry closes and is written out exactly when bit 15 of the flags is clear and the
      count has reached the length. */
  lemma AbsorbFacts(e: Entry, f: Frame)
    ensures var r, n, at := Absorb(e, f), |f.payload|, f.header.offset;
            r.0.id == e.id && r.0.lastActivity == e.lastActivity &&
            if at + n > 2500 then r.0 == e.(active := false) && r.1 == None
            else
              r.0.expected == (if e.expected == 0 then f.header.totalLen else e.expected) && r.0.received == e.received + n &&
              (forall x :: 0 <= x < 2500 ==> r.0.buffer[x] == if at <= x < at + n then f.payload[x - at] else e.buffer[x]) &&
              if (f.header.flags / 32768) % 2 == 0 && r.0.received >= r.0.expected
              then !r.0.active && r.1.Some? && (r.0.expected <= 2500 ==> r.1.value == r.0.buffer[..r.0.expected])
              else r.0.active == e.active && r.1 == None
  {
  }

  /** The whole receive step on the table. */
  function Receive(t: seq<Entry>, f: Frame, now: int): (r: (seq<Entry>, Option<seq<byte>>))
    ensures |r.0| == |t|
  {
    var j := SlotFor(t, f.header.packetId);
    if j == |t| then (t, None)
    else
      var a := Absorb(Opened(t[j], f.header.packetId, now), f);
      (t[j := a.0], a.1)
  }

  predicate Expired(e: Entry, now: int) { e.active && now - e.lastActivity > REASSEMBLY_TIMEOUT }

  function Sweep(t: seq<Entry>, now: int): (r: seq<Entry>)
    ensures |r| == |t|
  {
    seq(|t|, j requires 0 <= j < |t| => if Expired(t[j], now) then EMPTY else t[j])
  }

  /** One slot zeroed, as the body of the sweep's loop does. */
  function Wipe(t: seq<Entry>, j: nat): (r: seq<Entry>)
    ensures |r| == |t|
  {
    if j < |t| then t[j := EMPTY] else t
  }

  /** The length a completed entry is written out with. */
  function Announced(e: Entry, f: Frame): nat { if e.expected == 0 then f.header.totalLen else e.expected }

  /** The source asks TUN for the announced length.  That is more than the buffer holds if and
      only if a final frame completes an entry announcing more than 2500 bytes. */
  lemma OverreadIff(e: Entry, f: Frame)
    requires f.header.offset + |f.payload| <= MAX_PACKET_SIZE
    ensures Absorb(e, f).1.Some? && |Absorb(e, f).1.value| != Announced(e, f) <==>
            IsFinal(f) && Announced(e, f) > 2500 && e.received + |f.payload| >= Announced(e, f)
  {
    var g := Filled(e, f);
    assert |g.buffer| == MAX_PACKET_SIZE;
  }

  class Table {
    const slots: array<Entry>

    constructor (size: nat)
      ensures fresh(slots) && slots.Length == size
      ensures forall j :: 0 <= j < size ==> !slots[j].active
    {
      slots := new Entry[size](_ => EMPTY);
    }

    /** `find_or_create_entry`: the slot, or the table's size when no slot is left. */
    method FindOrCreate(id: nat, now: int) returns (j: nat)
      modifies slots
      ensures j == SlotFor(old(slots[..]), id)
      ensures slots[..] == if j < slots.Length then old(slots[..])[j := Opened(old(slots[j]), id, now)] else old(slots[..])
    {
      j := 0;
      while j < slots.Length
        invariant 0 <= j <= slots.Length && slots[..] == old(slots[..])
        invariant forall k :: 0 <= k < j ==> !Holds(slots[..][k], id)
      {
        if slots[j].active && slots[j].id == id {
          slots[j] := slots[j].(lastActivity := now);
          return;
        }
        j := j + 1;
      }
      assert FirstHolding(slots[..], id) == slots.Length;
      j := 0;
      while j < slots.Length
        invariant 0 <= j <= slots.Length && slots[..] == old(slots[..])
        invariant forall k :: 0 <= k < j ==> slots[..][k].active
      {
        if !slots[j].active {
          slots[j] := EMPTY;
          slots[j] := slots[j].(active := true, id := id, lastActivity := now);
          return;
        }
        j := j + 1;
      }
    }

    /** The reassembly half of `handle_inbound_udp` and `handle_udp_packet`. */
    method ReceiveFrame(f: Frame, now: int) returns (out: Option<seq<byte>>)
      modifies slots
      ensures slots[..] == Receive(old(slots[..]), f, now).0
      ensures out == Receive(old(slots[..]), f, now).1
    {
      out := None;
      var j := FindOrCreate(f.header.packetId, now);
      if j == slots.Length { return; }
      ghost var t := slots[..];
      if f.header.offset + |f.payload| > MAX_PACKET_SIZE {
        slots[j] := slots[j].(active := false);
        assert slots[..] == old(slots[..])[j := slots[j]];
        return;
      }
      if slots[j].expected == 0 { slots[j] := slots[j].(expected := f.header.totalLen); }
      slots[j] := slots[j].(buffer := Splice(slots[j].buffer, f.header.offset, f.payload));
      slots[j] := slots[j].(received := slots[j].received + |f.payload|);
      assert slots[..] == t[j := Filled(t[j], f)];
      if IsFinal(f) && slots[j].received >= slots[j].expected {
        var n := if slots[j].expected <= MAX_PACKET_SIZE then slots[j].expected else MAX_PACKET_SIZE;
        out := Some(slots[j].buffer[..n]);
        slots[j] := slots[j].(active := false);
      }
      assert slots[..] == t[j := Absorb(t[j], f).0];
      assert slots[..] == old(slots[..])[j := Absorb(t[j], f).0];
    }

    method SweepExpired(now: int)
      modifies slots
      ensures slots[..] == Sweep(old(slots[..]), now)
      ensures forall k :: 0 <= k < slots.Length ==>
                slots[k] == if old(slots[k]).active && now - old(slots[k]).lastActivity > 20
                            then Entry(false, 0, 0, 0, 0, Zeros(2500)) else old(slots[k])
    {
      var j := 0;
      while j < slots.Length
        invariant 0 <= j <= slots.Length
        invariant forall k :: 0 <= k < j ==> slots[k] == if Expired(old(slots[k]), now) then EMPTY else old(slots[k])
        invariant forall k :: j <= k < slots.Length ==> slots[k] == old(slots[k])
      {
        if slots[j].active && now - slots[j].lastActivity > REASSEMBLY_TIMEOUT { slots[j] := EMPTY; }
        j := j + 1;
      }
    }
  }
}
