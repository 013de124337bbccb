/** The sender's side: one IP packet cut into frames that fit the session's fragment size,
    padded or not. */
module Fragments {
  import opened Frames

  /** A packet handed to the fragmenter: its id, its bytes, the payload room `FRAG - 24` of a
      frame, and whether short frames are padded (PAD or CBR sessions). */
  datatype Packet = Packet(id: nat, bytes: seq<byte>, room: nat, padded: bool)

  /** TUN reads return 20 to 1600 bytes; the handshake clamps FRAG to 64..1200. */
  ghost predicate Sendable(p: Packet)
  {
    20 <= |p.bytes| <= 1600 && 40 <= p.room <= 1176
  }

  function Count(p: Packet): nat
    requires p.room > 0
  {
    (|p.bytes| + p.room - 1) / p.room
  }

  function Min(a: nat, b: nat): nat { if a < b then a else b }

  /** Frame i of a packet, in closed form. */
  function Fragment(p: Packet, i: nat): Frame
    requires p.room > 0 && i * p.room < |p.bytes|
  {
    var start := i * p.room;
    var end := Min(start + p.room, |p.bytes|);
    var fill := if p.padded then p.room - (end - start) else 0;
    Frame(Header(p.id, start, |p.bytes|, if end == |p.bytes| then FLAG_FINAL else FLAG_MORE),
          p.bytes[start..end] + Zeros(fill))
  }

  lemma {:induction false} Tiling(len: nat, room: nat, k: nat)
    requires room > 0 && k == (len + room - 1) / room
    ensures len <= k * room && (len > 0 ==> k > 0 && (k - 1) * room < len)
  {
    assert len + room - 1 == room * k + (len + room - 1) % room;
    if len > 0 {
      assert k >= 1;
      assert (k - 1) * room == k * room - room;
    }
  }

  lemma Monotone(a: nat, b: nat, m: nat)
    requires a <= b
    ensures a * m <= b * m
  {
  }

  /** Every index below the count starts inside the packet; all frames but the last are full. */
  lemma FragmentRange(p: Packet, i: nat)
    requires Sendable(p) && i < Count(p)
    ensures i * p.room < |p.bytes|
    ensures i < Count(p) - 1 <==> (i + 1) * p.room < |p.bytes|
    ensures (i + 1) * p.room == i * p.room + p.room
  {
    Tiling(|p.bytes|, p.room, Count(p));
    Monotone(i, Count(p) - 1, p.room);
    if i < Count(p) - 1 {
      Monotone(i + 1, Count(p) - 1, p.room);
    }
  }

  /** Every frame announces the packet's id and length and its own offset, and only the last one
      lacks the more-fragments bit. */
  lemma FragmentHeader(p: Packet, i: nat)
    requires Sendable(p) && i < Count(p)
    ensures i * p.room < |p.bytes|
    ensures Fragment(p, i).header == Header(p.id, i * p.room, |p.bytes|, if i == Count(p) - 1 then 0 else 0x8000)
  {
    FragmentRange(p, i);
  }

  /** Nonlinear bound: the padded length of any packet fits the reassembly buffer. */
  lemma PaddedBound(len: nat, room: nat)
    requires len <= 1600 && 40 <= room <= 1176
    ensures room * ((len + room - 1) / room) <= 2500
  {
    var k := (len + room - 1) / room;
    Tiling(len, room, k);
    if k <= 2 {
      Monotone(k, 2, room);
    } else {
      Monotone(2, k - 1, room);
      assert (k - 1) * room == k * room - room;
    }
  }

  /** No honest frame, padded or not, trips the receiver's size rejection. */
  lemma FragmentFits(p: Packet, i: nat)
    requires Sendable(p) && i < Count(p)
    ensures i * p.room < |p.bytes|
    ensures i * p.room + |Fragment(p, i).payload| <= MAX_PACKET_SIZE
    ensures |Fragment(p, i).payload| ==
            if i < Count(p) - 1 || p.padded then p.room else |p.bytes| - i * p.room
  {
    FragmentRange(p, i);
    PaddedBound(|p.bytes|, p.room);
    Monotone(i + 1, Count(p), p.room);
  }

  lemma SameTile(room: nat, x: nat, i: nat, j: nat)
    requires room > 0 && i * room <= x < (i + 1) * room && j * room <= x < (j + 1) * room
    ensures i == j
  {
    if j < i { Monotone(j + 1, i, room); }
    if i < j { Monotone(i + 1, j, room); }
  }

  lemma TileIndex(p: Packet, x: nat) returns (i: nat)
    requires Sendable(p) && x < |p.bytes|
    ensures i < Count(p) && i * p.room <= x < (i + 1) * p.room && i * p.room < |p.bytes|
  {
    i := x / p.room;
    assert x == p.room * i + x % p.room;
    assert (i + 1) * p.room == i * p.room + p.room;
    Tiling(|p.bytes|, p.room, Count(p));
    if i >= Count(p) { Monotone(Count(p), i, p.room); }
  }

  lemma FragmentByte(p: Packet, i: nat, x: nat)
    requires Sendable(p) && i < Count(p) && x < |p.bytes|
    requires i * p.room <= x < (i + 1) * p.room
    ensures x - i * p.room < |Fragment(p, i).payload|
    ensures Fragment(p, i).payload[x - i * p.room] == p.bytes[x]
  {
    FragmentRange(p, i);
    var start := i * p.room;
    var end := Min(start + p.room, |p.bytes|);
    assert Fragment(p, i).payload[x - start] == p.bytes[start..end][x - start];
  }

  /** The frames tile the packet: each byte lies in exactly one frame, at its own offset. */
  lemma FragmentsTile(p: Packet, x: nat)
    requires Sendable(p) && x < |p.bytes|
    ensures exists i :: 0 <= i < Count(p) && CarriesByte(p, i, x)
    ensures forall i, j :: 0 <= i < Count(p) && 0 <= j < Count(p) && CarriesByte(p, i, x) && CarriesByte(p, j, x) ==> i == j
  {
    var i := TileIndex(p, x);
    FragmentByte(p, i, x);
    assert CarriesByte(p, i, x);
    forall i, j | 0 <= i < Count(p) && 0 <= j < Count(p) && CarriesByte(p, i, x) && CarriesByte(p, j, x)
      ensures i == j
    {
      FragmentFits(p, i);
      FragmentFits(p, j);
      SameTile(p.room, x, i, j);
    }
  }

  /** Byte x of the packet travels in frame i, at the place its header announces. */
  ghost predicate CarriesByte(p: Packet, i: nat, x: nat)
    requires p.room > 0 && x < |p.bytes|
  {
    i * p.room < |p.bytes| &&
    var f := Fragment(p, i);
    f.header.offset <= x < f.header.offset + |f.payload| && f.payload[x - f.header.offset] == p.bytes[x]
  }

  /** `packet_padding`: zero the frame buffer from the end of the data to the fragment size,
      in place.  An unusable size, or data already larger, leaves it alone. */
  method PacketPadding(buf: array<byte>, used: nat, frag: int)
    requires buf.Length == 1600
    modifies buf
    ensures buf[..] == if 0 < frag <= 1600 && used <= frag
                       then old(buf[..used]) + Zeros(frag - used) + old(buf[frag..])
                       else old(buf[..])
    ensures 0 < frag <= 1600 ==> forall k :: used <= k < frag ==> buf[k] == 0
  {
    if frag <= 0 || frag > MAX_FRAG || used > frag { return; }
    var i := used;
    while i < frag
      invariant used <= i <= frag
      invariant buf[..] == old(buf[..used]) + Zeros(i - used) + old(buf[i..])
    {
      buf[i] := 0;
      i := i + 1;
    }
  }

  /** All frames of a packet, in order. */
  ghost function Cut(p: Packet): (frames: seq<Frame>)
    requires Sendable(p)
    ensures |frames| == Count(p)
  {
    seq(Count(p), i requires 0 <= i < Count(p) => FragmentRange(p, i); Fragment(p, i))
  }

  /** One turn of the fragment loop: the frame at an offset, built in the 1600-byte buffer. */
  method BuildFrame(bytes: seq<byte>, id: nat, frag: nat, padded: bool, offset: nat) returns (f: Frame, chunk: nat)
    requires 20 <= |bytes| <= 1600 && 64 <= frag <= 1200 && offset < |bytes|
    ensures chunk == if |bytes| - offset > frag - 24 then frag - 24 else |bytes| - offset
    ensures f.header == Header(id, offset, |bytes|, if offset + chunk == |bytes| then 0 else 0x8000)
    ensures f.payload == bytes[offset..offset + chunk] + Zeros(if padded then frag - 24 - chunk else 0)
  {
    var buf := new byte[MAX_FRAG](_ => 0);
    var room := frag - HEADER_LEN;
    chunk := if |bytes| - offset > room then room else |bytes| - offset;
    forall j | 0 <= j < chunk { buf[HEADER_LEN + j] := bytes[offset + j]; }
    var used := HEADER_LEN + chunk;
    assert buf[HEADER_LEN..used] == bytes[offset..offset + chunk];
    if padded {
      ghost var data := buf[..used];
      PacketPadding(buf, used, frag);
      used := frag;
      assert buf[HEADER_LEN..used] == data[HEADER_LEN..] + Zeros(frag - |data|);
    }
    // The source truncates both lengths to 16 bits; a TUN read is at most 1600 bytes.
    var flags := if offset + chunk == |bytes| then FLAG_FINAL else FLAG_MORE;
    f := Frame(Header(id, offset % 65536, |bytes| % 65536, flags), buf[HEADER_LEN..used]);
  }

  /** The fragment loop of `handle_outbound_tun_buf` and `handle_tun_packet`. */
  method FragmentPacket(bytes: seq<byte>, id: nat, frag: nat, padded: bool) returns (frames: seq<Frame>)
    requires |bytes| <= 1600 && 64 <= frag <= 1200
    ensures |bytes| < 20 ==> frames == []
    ensures |bytes| >= 20 ==> frames == Cut(Packet(id, bytes, frag - 24, padded))
  {
    frames := [];
    if |bytes| < 20 { return; }
    ghost var p := Packet(id, bytes, frag - HEADER_LEN, padded);
    var offset := 0;
    Tiling(|bytes|, p.room, Count(p));
    while offset < |bytes|
      invariant |frames| <= Count(p) && frames == Cut(p)[..|frames|]
      invariant offset == Min(|frames| * p.room, |bytes|)
      decreases |bytes| - offset
    {
      ghost var i := |frames|;
      if i == Count(p) { assert false; }
      FragmentRange(p, i);
      var f, chunk := BuildFrame(bytes, id, frag, padded, offset);
      assert f == Fragment(p, i);
      frames := frames + [f];
      offset := offset + chunk;
    }
    assert |frames| == Count(p) by {
      if |frames| < Count(p) { FragmentRange(p, |frames|); }
    }
  }
}
