/** The length asked of TUN over whole runs of arbitrary frames, honest or not. */
module Overread {
  import opened Frames
  import opened Reassembly

  /** Any frame that decrypts, a sweep, or the zeroing of one slot. */
  datatype Arrival = Arrive(f: Frame, now: int) | SweepAt(now: int) | WipeAt(j: nat)

  function After(t: seq<Entry>, a: Arrival): (r: seq<Entry>)
    ensures |r| == |t|
  {
    match a
    case Arrive(f, now) => Receive(t, f, now).0
    case SweepAt(now) => Sweep(t, now)
    case WipeAt(j) => Wipe(t, j)
  }

  function Run(t: seq<Entry>, arrivals: seq<Arrival>): (r: seq<Entry>)
    ensures |r| == |t|
  {
    if arrivals == [] then t else After(Run(t, arrivals[..|arrivals| - 1]), arrivals[|arrivals| - 1])
  }

  /** The length the source passes to its write to TUN, if the arrival leads to one. */
  function Asked(t: seq<Entry>, a: Arrival): Option<nat>
  {
    if !a.Arrive? then None
    else
      var j := SlotFor(t, a.f.header.packetId);
      if j == |t| || Receive(t, a.f, a.now).1.None? then None
      else Some(Announced(Opened(t[j], a.f.header.packetId, a.now), a.f))
  }

  /** The write reads past the entry's buffer. */
  predicate Overreads(t: seq<Entry>, a: Arrival) { Asked(t, a).Some? && Asked(t, a).value > 2500 }

  /** The arrival is read past exactly when it is the final frame, fits the buffer, and brings
      the count up to an announced length of more than 2500 bytes. */
  lemma OverreadsIff(t: seq<Entry>, f: Frame, now: int)
    ensures var j := SlotFor(t, f.header.packetId);
            Overreads(t, Arrive(f, now)) <==>
            j < |t| && f.header.offset + |f.payload| <= 2500 && IsFinal(f) &&
            var e := Opened(t[j], f.header.packetId, now);
            2500 < Announced(e, f) <= e.received + |f.payload|
  {
    var j := SlotFor(t, f.header.packetId);
    if j < |t| && f.header.offset + |f.payload| <= MAX_PACKET_SIZE {
      OverreadIff(Opened(t[j], f.header.packetId, now), f);
    }
  }

  /** Open entries expect no more than the buffer holds. */
  ghost predicate Modest(t: seq<Entry>)
  {
    forall j :: 0 <= j < |t| && t[j].active ==> t[j].expected <= 2500
  }

  ghost predicate AllModest(arrivals: seq<Arrival>)
  {
    forall n :: 0 <= n < |arrivals| && arrivals[n].Arrive? ==> arrivals[n].f.header.totalLen <= 2500
  }

  lemma StaysModest(t: seq<Entry>, a: Arrival)
    requires Modest(t) && AllModest([a])
    ensures Modest(After(t, a)) && !Overreads(t, a)
  {
    assert [a][0] == a;
  }

  lemma {:induction false} RunModest(t: seq<Entry>, arrivals: seq<Arrival>)
    requires Modest(t) && AllModest(arrivals)
    ensures Modest(Run(t, arrivals))
  {
    if arrivals != [] {
      var n := |arrivals| - 1;
      RunModest(t, arrivals[..n]);
      StaysModest(Run(t, arrivals[..n]), arrivals[n]);
    }
  }

  /** Over every run, of any frames in any order, with sweeps and wipes: if every frame announces
      at most 2500 bytes, and no entry left open from before expects more, no write ever reads
      past its buffer. */
  lemma NeverOverreads(t: seq<Entry>, arrivals: seq<Arrival>, n: nat)
    requires Modest(t) && AllModest(arrivals) && n < |arrivals|
    ensures !Overreads(Run(t, arrivals[..n]), arrivals[n])
  {
    RunModest(t, arrivals[..n]);
    StaysModest(Run(t, arrivals[..n]), arrivals[n]);
  }

  // ---------- The failing input ----------

  lemma RunOne(t: seq<Entry>, arrivals: seq<Arrival>, a: Arrival)
    ensures Run(t, arrivals + [a]) == After(Run(t, arrivals), a)
  {
    assert (arrivals + [a])[..|arrivals|] == arrivals;
  }

  /** A frame of 1000 bytes at offset 0 announcing 2600. */
  predicate Boasts(f: Frame, id: nat, flags: nat)
  {
    f.header == Header(id, 0, 2600, flags) && |f.payload| == 1000
  }

  lemma FirstBoast(t: seq<Entry>, f: Frame, id: nat, now: int)
    requires |t| > 0 && (forall j :: 0 <= j < |t| ==> !t[j].active) && Boasts(f, id, FLAG_MORE)
    ensures var e := Receive(t, f, now).0[0];
            Receive(t, f, now).0 == t[0 := e] && Holds(e, id) && e.expected == 2600 && e.received == 1000
  {
    assert FirstHolding(t, id) == |t| && FirstFree(t) == 0;
  }

  lemma NextBoast(t: seq<Entry>, f: Frame, id: nat, now: int)
    requires |t| > 0 && Holds(t[0], id) && t[0].expected == 2600 && Boasts(f, id, FLAG_MORE)
    ensures var e := Receive(t, f, now).0[0];
            Holds(e, id) && e.expected == 2600 && e.received == t[0].received + 1000
  {
    assert FirstHolding(t, id) == 0;
  }

  /** Three frames of 1000 bytes each announcing 2600, the last one final, from any table without
      open entries: the third asks TUN for 2600 bytes of a 2500-byte buffer. */
  lemma {:induction false} ThreeBoasts(t: seq<Entry>, f: Frame, g: Frame, h: Frame, id: nat, now: int, arrivals: seq<Arrival>)
    requires |t| > 0 && (forall j :: 0 <= j < |t| ==> !t[j].active)
    requires Boasts(f, id, FLAG_MORE) && Boasts(g, id, FLAG_MORE) && Boasts(h, id, FLAG_FINAL)
    requires arrivals == [Arrive(f, now), Arrive(g, now)]
    ensures Asked(Run(t, arrivals), Arrive(h, now)) == Some(2600)
  {
    var u := Receive(t, f, now).0;
    var v := Receive(u, g, now).0;
    var none: seq<Arrival> := [];
    assert arrivals == none + [Arrive(f, now)] + [Arrive(g, now)];
    RunOne(t, none, Arrive(f, now));
    RunOne(t, none + [Arrive(f, now)], Arrive(g, now));
    FirstBoast(t, f, id, now);
    NextBoast(u, g, id, now);
    assert FirstHolding(v, id) == 0;
    OverreadsIff(v, h, now);
  }
}
