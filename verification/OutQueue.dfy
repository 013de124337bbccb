/** The two-lane outgoing queue: HIGH before NORMAL, each lane bounded, the oldest entry
    dropped when a lane is full.  The class keeps the history of each lane, so its invariant
    speaks of every run. */
module OutQueue {
  import opened Frames
  import opened LinkedFifo

  const QUEUE_CAP_HIGH: nat := 64
  const QUEUE_CAP_NORMAL: nat := 256

  datatype Priority = High | Normal

  function Word16(ip: seq<byte>, at: nat): nat
    requires at + 1 < |ip|
  {
    ip[at] as nat * 256 + ip[at + 1] as nat
  }

  /** `classify_packet`: small packets, ICMP, DNS and pure TCP acknowledgements go first. */
  function Classify(ip: seq<byte>): Priority
  {
    if |ip| < 20 then Normal
    else
      var version := ip[0] as nat / 16;
      if version == 4 then
        var totalLen := Word16(ip, 2);
        var protocol := ip[9];
        var ihl := (ip[0] as nat % 16) * 4;
        if totalLen <= 128 || protocol == 1 then High
        else if protocol == 17 && |ip| >= ihl + 4 && (Word16(ip, ihl) == 53 || Word16(ip, ihl + 2) == 53) then High
        else if protocol == 6 && |ip| >= ihl + 20 then
          var tcpOff := (ip[ihl + 12] as nat / 16) * 4;
          var ack := (ip[ihl + 13] as nat / 16) % 2 == 1;
          if ack && (totalLen - ihl - tcpOff) % 65536 == 0 then High else Normal
        else Normal
      else if version == 6 then
        if (|ip| >= 40 && ip[6] == 58) || |ip| <= 128 then High else Normal
      else Normal
  }

  predicate IsV4(ip: seq<byte>) { |ip| >= 20 && ip[0] as nat / 16 == 4 }
  predicate IsV6(ip: seq<byte>) { |ip| >= 20 && ip[0] as nat / 16 == 6 }

  function HeaderLen(ip: seq<byte>): nat
    requires |ip| >= 20
  {
    (ip[0] as nat % 16) * 4
  }

  // The interactive traffic, in bytes of the packet.

  /** Total length, or for IPv6 the size read, of at most 128 bytes. */
  predicate Small(ip: seq<byte>) { (IsV4(ip) && ip[2] == 0 && ip[3] <= 128) || (IsV6(ip) && |ip| <= 128) }

  predicate Icmp(ip: seq<byte>) { (IsV4(ip) && ip[9] == 1) || (IsV6(ip) && |ip| >= 40 && ip[6] == 58) }

  /** UDP from or to port 53, most significant byte first. */
  predicate Dns(ip: seq<byte>)
  {
    IsV4(ip) && ip[9] == 17 &&
    var h := HeaderLen(ip);
    |ip| >= h + 4 && ((ip[h] == 0 && ip[h + 1] == 53) || (ip[h + 2] == 0 && ip[h + 3] == 53))
  }

  /** A TCP segment with ACK set whose headers fill the packet to its last byte. */
  predicate PureAck(ip: seq<byte>)
  {
    IsV4(ip) && ip[9] == 6 &&
    var h := HeaderLen(ip);
    |ip| >= h + 20 && (ip[h + 13] as nat / 16) % 2 == 1 && ip[2] as nat * 256 + ip[3] as nat == h + (ip[h + 12] as nat / 16) * 4
  }

  /** HIGH is exactly the documented interactive traffic.  The pure-acknowledgement test never
      decides: headers alone are at most 120 bytes, so such a packet is small already. */
  lemma HighIsInteractive(ip: seq<byte>)
    ensures Classify(ip).High? <==> Small(ip) || Icmp(ip) || Dns(ip) || PureAck(ip)
    ensures PureAck(ip) ==> Small(ip)
  {
    if IsV4(ip) && ip[9] == 6 && |ip| >= HeaderLen(ip) + 20 && Word16(ip, 2) > 128 {
      var payload := Word16(ip, 2) - HeaderLen(ip) - (ip[HeaderLen(ip) + 12] as nat / 16) * 4;
      assert 0 < payload < 65536;
    }
  }

  /** The life of a lane: everything pushed, how many entries have left it at the head, and
      which of those were handed to the sender rather than dropped. */
  datatype History<T> = History(pushed: seq<T>, gone: nat, sent: seq<nat>)

  /** In every run: a lane holds what was pushed and has not left, at most its capacity, and
      what it handed over left in push order. */
  ghost predicate Coherent<T>(h: History<T>, cap: nat)
  {
    && h.gone <= |h.pushed| <= h.gone + cap
    && (forall k :: 0 <= k < |h.sent| ==> h.sent[k] < h.gone)
    && (forall a, b :: 0 <= a < b < |h.sent| ==> h.sent[a] < h.sent[b])
  }

  ghost function Waiting<T>(h: History<T>): seq<T>
    requires h.gone <= |h.pushed|
  {
    h.pushed[h.gone..]
  }

  ghost function AfterPush<T>(h: History<T>, item: T, cap: nat): History<T>
  {
    h.(pushed := h.pushed + [item], gone := if |h.pushed| - h.gone >= cap then h.gone + 1 else h.gone)
  }

  ghost function AfterPop<T>(h: History<T>): History<T>
  {
    h.(gone := h.gone + 1, sent := h.sent + [h.gone])
  }

  lemma PushKeeps<T>(h: History<T>, item: T, cap: nat)
    requires Coherent(h, cap) && cap > 0
    ensures Coherent(AfterPush(h, item, cap), cap)
    ensures Waiting(AfterPush(h, item, cap)) == (if |Waiting(h)| >= cap then Waiting(h)[1..] else Waiting(h)) + [item]
  {
  }

  class Lane<T> {
    const cap: nat
    const list: Fifo<T>
    ghost var history: History<T>

    ghost predicate Valid()
      reads this, list, list.repr
    {
      0 < cap && list.Valid() && Coherent(history, cap) && list.Contents() == Waiting(history)
    }

    constructor (cap: nat)
      requires cap > 0
      ensures Valid() && this.cap == cap && fresh(list) && list.repr == {} && history == History([], 0, [])
    {
      this.cap := cap;
      list := new Fifo();
      history := History([], 0, []);
    }

    /** Enqueue, dropping the oldest entry when the lane is full. */
    method Push(item: T)
      requires Valid()
      modifies this, list, list.repr
      ensures Valid() && history == AfterPush(old(history), item, cap)
      ensures Waiting(history) == (if |Waiting(old(history))| >= cap then Waiting(old(history))[1..] else Waiting(old(history))) + [item]
      ensures history.sent == old(history.sent)
      ensures fresh(list.repr - old(list.repr))
    {
      PushKeeps(history, item, cap);
      if list.size >= cap {
        var dropped := list.RemoveHead();
      }
      list.Append(item);
      history := AfterPush(history, item, cap);
    }

    method Pop() returns (item: T)
      requires Valid() && Waiting(history) != []
      modifies this, list
      ensures Valid() && history == AfterPop(old(history)) && item == Waiting(old(history))[0]
      ensures Waiting(history) == Waiting(old(history))[1..] && history.sent == old(history.sent) + [old(history.gone)]
      ensures list.repr == old(list.repr)
    {
      item := list.RemoveHead();
      history := AfterPop(history);
    }
  }

  class Queue<T> {
    const high: Lane<T>
    const normal: Lane<T>

    ghost predicate Valid()
      reads this, high, normal, high.list, normal.list, high.list.repr, normal.list.repr
    {
      && high != normal && high.list != normal.list
      && high.cap == QUEUE_CAP_HIGH && normal.cap == QUEUE_CAP_NORMAL
      && high.Valid() && normal.Valid()
      && high.list.repr !! normal.list.repr
    }

    constructor ()
      ensures Valid() && fresh(high) && fresh(normal) && fresh(high.list) && fresh(normal.list)
      ensures high.history == normal.history == History([], 0, [])
    {
      high := new Lane(QUEUE_CAP_HIGH);
      normal := new Lane(QUEUE_CAP_NORMAL);
    }

    /** `packet_queue_push`: the lane depends only on the IP packet the entry was cut from. */
    method Push(item: T, ip: seq<byte>)
      requires Valid()
      modifies high, high.list, high.list.repr, normal, normal.list, normal.list.repr
      ensures Valid()
      ensures high.history == if Classify(ip).High? then AfterPush(old(high.history), item, 64) else old(high.history)
      ensures normal.history == if Classify(ip).Normal? then AfterPush(old(normal.history), item, 256) else old(normal.history)
      ensures fresh(high.list.repr - old(high.list.repr)) && fresh(normal.list.repr - old(normal.list.repr))
    {
      if Classify(ip).High? {
        high.Push(item);
      } else {
        normal.Push(item);
      }
    }

    /** `out_queue_pop`: NORMAL only when HIGH is empty, nothing only when both are. */
    method Pop() returns (item: Option<T>)
      requires Valid()
      modifies high, high.list, normal, normal.list
      ensures Valid()
      ensures old(Waiting(high.history)) != [] ==>
                item == Some(old(Waiting(high.history))[0]) && high.history == AfterPop(old(high.history)) && normal.history == old(normal.history)
      ensures old(Waiting(high.history)) == [] ==> high.history == old(high.history)
      ensures old(Waiting(high.history)) == [] && old(Waiting(normal.history)) != [] ==>
                item == Some(old(Waiting(normal.history))[0]) && normal.history == AfterPop(old(normal.history))
      ensures old(Waiting(high.history)) == [] && old(Waiting(normal.history)) == [] ==>
                item == None && normal.history == old(normal.history)
    {
      item := None;
      if high.list.head != null {
        var x := high.Pop();
        item := Some(x);
      } else if normal.list.head != null {
        var x := normal.Pop();
        item := Some(x);
      }
    }
  }

  // ---------- Every run of the queue ----------

  /** The queue's operations, in the order its lock admits them, from whatever threads. */
  datatype QueueOp<T> = PushOp(item: T, ip: seq<byte>) | PopOp

  /** Both lanes, for each of their entries the operation that pushed it, and for each entry
      handed to the sender, in order, the operation that pushed it. */
  datatype QueueLog<T> = QueueLog(high: History<T>, normal: History<T>, highFrom: seq<nat>, normalFrom: seq<nat>, out: seq<nat>)

  predicate PushesTo<T>(op: QueueOp<T>, lane: Priority) { op.PushOp? && Classify(op.ip) == lane }

  /** The pushes into one lane, in order. */
  ghost function Pushes<T>(ops: seq<QueueOp<T>>, lane: Priority): (r: seq<nat>)
    ensures forall k :: 0 <= k < |r| ==> r[k] < |ops| && PushesTo(ops[r[k]], lane)
    ensures forall k, m :: 0 <= k < m < |r| ==> r[k] < r[m]
  {
    if ops == [] then []
    else
      var n := |ops| - 1;
      if PushesTo(ops[n], lane) then Pushes(ops[..n], lane) + [n] else Pushes(ops[..n], lane)
  }

  /** One lane of the log: its entries are the pushes into it, and what it handed over came
      before everything it still holds. */
  ghost predicate LaneLog<T>(ops: seq<QueueOp<T>>, lane: Priority, h: History<T>, from: seq<nat>, out: seq<nat>, cap: nat)
  {
    && Coherent(h, cap) && from == Pushes(ops, lane) && |h.pushed| == |from|
    && (forall k :: 0 <= k < |from| ==> h.pushed[k] == ops[from[k]].item)
    && (forall x, k :: 0 <= x < |out| && out[x] < |ops| && PushesTo(ops[out[x]], lane) && h.gone <= k < |from| ==> out[x] < from[k])
  }

  ghost predicate LogOk<T>(ops: seq<QueueOp<T>>, q: QueueLog<T>)
  {
    && LaneLog(ops, High, q.high, q.highFrom, q.out, QUEUE_CAP_HIGH)
    && LaneLog(ops, Normal, q.normal, q.normalFrom, q.out, QUEUE_CAP_NORMAL)
    && (forall x :: 0 <= x < |q.out| ==> q.out[x] < |ops| && ops[q.out[x]].PushOp?)
    && (forall x, y :: 0 <= x < y < |q.out| && Classify(ops[q.out[x]].ip) == Classify(ops[q.out[y]].ip) ==> q.out[x] < q.out[y])
  }

  /** One operation, as `Queue.Push` and `Queue.Pop` carry it out. */
  ghost function Logged<T>(q: QueueLog<T>, op: QueueOp<T>, n: nat): QueueLog<T>
    requires q.high.gone <= |q.high.pushed| == |q.highFrom| && q.normal.gone <= |q.normal.pushed| == |q.normalFrom|
  {
    match op
    case PushOp(item, ip) =>
      if Classify(ip).High? then q.(high := AfterPush(q.high, item, QUEUE_CAP_HIGH), highFrom := q.highFrom + [n])
      else q.(normal := AfterPush(q.normal, item, QUEUE_CAP_NORMAL), normalFrom := q.normalFrom + [n])
    case PopOp =>
      if Waiting(q.high) != [] then q.(high := AfterPop(q.high), out := q.out + [q.highFrom[q.high.gone]])
      else if Waiting(q.normal) != [] then q.(normal := AfterPop(q.normal), out := q.out + [q.normalFrom[q.normal.gone]])
      else q
  }

  /** A lane that is pushed to; a full one loses its head. */
  lemma LanePushed<T>(ops: seq<QueueOp<T>>, op: QueueOp<T>, lane: Priority, h: History<T>, from: seq<nat>, out: seq<nat>, cap: nat)
    requires LaneLog(ops, lane, h, from, out, cap) && PushesTo(op, lane) && cap > 0
    requires forall x :: 0 <= x < |out| ==> out[x] < |ops|
    ensures LaneLog(ops + [op], lane, AfterPush(h, op.item, cap), from + [|ops|], out, cap)
  {
    assert (ops + [op])[..|ops|] == ops;
  }

  lemma LaneSpared<T>(ops: seq<QueueOp<T>>, op: QueueOp<T>, lane: Priority, h: History<T>, from: seq<nat>, out: seq<nat>, cap: nat)
    requires LaneLog(ops, lane, h, from, out, cap) && !PushesTo(op, lane)
    requires forall x :: 0 <= x < |out| ==> out[x] < |ops|
    ensures LaneLog(ops + [op], lane, h, from, out, cap)
  {
    assert (ops + [op])[..|ops|] == ops;
  }

  lemma PushLogged<T>(ops: seq<QueueOp<T>>, q: QueueLog<T>, op: QueueOp<T>)
    requires LogOk(ops, q) && op.PushOp?
    ensures LogOk(ops + [op], Logged(q, op, |ops|))
  {
    if Classify(op.ip).High? {
      LanePushed(ops, op, High, q.high, q.highFrom, q.out, QUEUE_CAP_HIGH);
      LaneSpared(ops, op, Normal, q.normal, q.normalFrom, q.out, QUEUE_CAP_NORMAL);
    } else {
      LaneSpared(ops, op, High, q.high, q.highFrom, q.out, QUEUE_CAP_HIGH);
      LanePushed(ops, op, Normal, q.normal, q.normalFrom, q.out, QUEUE_CAP_NORMAL);
    }
  }

  /** A lane that is popped. */
  lemma LanePopped<T>(ops: seq<QueueOp<T>>, lane: Priority, h: History<T>, from: seq<nat>, out: seq<nat>, cap: nat)
    requires LaneLog(ops, lane, h, from, out, cap) && h.gone < |from|
    ensures LaneLog(ops + [PopOp], lane, AfterPop(h), from, out + [from[h.gone]], cap)
  {
    assert (ops + [PopOp])[..|ops|] == ops;
  }

  /** A lane while nothing or an entry of the other lane leaves. */
  lemma LanePassed<T>(ops: seq<QueueOp<T>>, lane: Priority, h: History<T>, from: seq<nat>, out: seq<nat>, left: seq<nat>, cap: nat)
    requires LaneLog(ops, lane, h, from, out, cap)
    requires |left| <= 1 && forall k :: 0 <= k < |left| ==> left[k] < |ops| && !PushesTo(ops[left[k]], lane)
    ensures LaneLog(ops + [PopOp], lane, h, from, out + left, cap)
  {
    assert (ops + [PopOp])[..|ops|] == ops;
  }

  /** The entry that leaves came after all of its lane that left before. */
  lemma OutGrows<T>(ops: seq<QueueOp<T>>, q: QueueLog<T>, z: nat)
    requires LogOk(ops, q) && z < |ops| && ops[z].PushOp?
    requires forall x :: 0 <= x < |q.out| && Classify(ops[q.out[x]].ip) == Classify(ops[z].ip) ==> q.out[x] < z
    ensures var out, more := q.out + [z], ops + [PopOp];
            (forall x :: 0 <= x < |out| ==> out[x] < |more| && more[out[x]].PushOp?) &&
            (forall x, y :: 0 <= x < y < |out| && Classify(more[out[x]].ip) == Classify(more[out[y]].ip) ==> out[x] < out[y])
  {
  }

  lemma PopLogged<T>(ops: seq<QueueOp<T>>, q: QueueLog<T>, op: QueueOp<T>)
    requires LogOk(ops, q) && op.PopOp?
    ensures LogOk(ops + [op], Logged(q, op, |ops|))
  {
    var h, n := q.high, q.normal;
    if Waiting(h) != [] {
      var z := q.highFrom[h.gone];
      LanePopped(ops, High, h, q.highFrom, q.out, QUEUE_CAP_HIGH);
      LanePassed(ops, Normal, n, q.normalFrom, q.out, [z], QUEUE_CAP_NORMAL);
      OutGrows(ops, q, z);
    } else if Waiting(n) != [] {
      var z := q.normalFrom[n.gone];
      LanePassed(ops, High, h, q.highFrom, q.out, [z], QUEUE_CAP_HIGH);
      LanePopped(ops, Normal, n, q.normalFrom, q.out, QUEUE_CAP_NORMAL);
      OutGrows(ops, q, z);
    } else {
      LanePassed(ops, High, h, q.highFrom, q.out, [], QUEUE_CAP_HIGH);
      LanePassed(ops, Normal, n, q.normalFrom, q.out, [], QUEUE_CAP_NORMAL);
      assert q.out + [] == q.out;
    }
  }

  ghost function QueueRun<T>(ops: seq<QueueOp<T>>): (q: QueueLog<T>)
    ensures LogOk(ops, q)
  {
    if ops == [] then QueueLog(History([], 0, []), History([], 0, []), [], [], [])
    else
      var n := |ops| - 1;
      var q := QueueRun(ops[..n]);
      assert ops == ops[..n] + [ops[n]];
      if ops[n].PushOp? then PushLogged(ops[..n], q, ops[n]); Logged(q, ops[n], n)
      else PopLogged(ops[..n], q, ops[n]); Logged(q, ops[n], n)
  }

  lemma RunOne<T>(ops: seq<QueueOp<T>>, op: QueueOp<T>)
    ensures QueueRun(ops + [op]) == Logged(QueueRun(ops), op, |ops|)
  {
    assert (ops + [op])[..|ops|] == ops;
  }

  /** What a push does in any run, to the lane of its packet and to no other: the entry joins at
      the end, and the oldest one leaves exactly when 64 (256) are waiting. */
  lemma PushAdds<T>(ops: seq<QueueOp<T>>, item: T, ip: seq<byte>)
    ensures var q, r := QueueRun(ops), QueueRun(ops + [PushOp(item, ip)]);
            r.out == q.out &&
            if Classify(ip).High? then
              r.normal == q.normal && Waiting(r.high) == (if |Waiting(q.high)| >= 64 then Waiting(q.high)[1..] else Waiting(q.high)) + [item]
            else
              r.high == q.high && Waiting(r.normal) == (if |Waiting(q.normal)| >= 256 then Waiting(q.normal)[1..] else Waiting(q.normal)) + [item]
  {
    var q := QueueRun(ops);
    RunOne(ops, PushOp(item, ip));
    PushKeeps(q.high, item, 64);
    PushKeeps(q.normal, item, 256);
  }

  /** What a pop does in any run: the oldest waiting HIGH entry leaves, only if there is none the
      oldest waiting NORMAL one, and the lanes never hold more than 64 and 256 entries. */
  lemma PopTakes<T>(ops: seq<QueueOp<T>>)
    ensures var q, r := QueueRun(ops), QueueRun(ops + [PopOp]);
            |Waiting(q.high)| <= 64 && |Waiting(q.normal)| <= 256 &&
            if Waiting(q.high) != [] then
              |r.out| == |q.out| + 1 && ops[r.out[|q.out|]].item == Waiting(q.high)[0] && Waiting(r.high) == Waiting(q.high)[1..] && r.normal == q.normal
            else if Waiting(q.normal) != [] then
              |r.out| == |q.out| + 1 && ops[r.out[|q.out|]].item == Waiting(q.normal)[0] && Waiting(r.normal) == Waiting(q.normal)[1..] && r.high == q.high
            else r == q
  {
    RunOne(ops, PopOp);
  }

  /** In every run of pushes and pops, in any order and from any threads: the frames of one IP
      packet, pushed one by one with anything else in between, leave in the order they were
      pushed, each at most once, however many were dropped; and what leaves was pushed. */
  lemma FragmentOrder<T>(ops: seq<QueueOp<T>>, x: nat, y: nat)
    requires x < y < |QueueRun(ops).out|
    ensures var out := QueueRun(ops).out;
            out[x] < |ops| && out[y] < |ops| && ops[out[x]].PushOp? && ops[out[y]].PushOp? &&
            (ops[out[x]].ip == ops[out[y]].ip ==> out[x] < out[y])
  {
    var q := QueueRun(ops);
    assert LogOk(ops, q);
  }
}
