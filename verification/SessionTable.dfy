/** The server's session slots: allocation, VPN addresses, expiry, look-ups, and what the two
    handshake handlers do to them.  A handshake finds the client's slot in one step and keys a
    slot in another, and sessions may end in between; the keys it derives, the rate limiter's
    answer, and whether its cryptography succeeds, are inputs. */
module SessionTable {
  import opened Frames
  import opened ReplayView

  const MAX_CLIENTS: nat := 250
  const SESSION_TIMEOUT: int := 60

  const ZERO_ID: SessionId := Zeros(16)

  datatype Ip = Ip(a: nat, b: nat, c: nat, d: nat)

  /** A client's UDP address. */
  datatype Addr = Addr(ip: nat, port: nat)

  /** What a client asks for in MSG1: rate, fragment size, constant bit rate, padding. */
  datatype Params = Params(mbps: int, frag: int, cbr: char, pad: char)

  datatype Slot =
    Slot(active: bool, keys: Keys, vpnIp: Ip, addr: Addr, lastActivity: int, sendSeq: nat, rw: View, params: Params)

  const NO_KEYS: Keys := Keys(ZERO_ID, 0, 0)
  const NO_IP: Ip := Ip(0, 0, 0, 0)

  /** Values out of range fall back to their defaults. */
  function Clamped(p: Params): Params
  {
    Params(if p.mbps < 1 || p.mbps > 15 then 5 else p.mbps,
           if p.frag < 64 || p.frag > 1200 then 1024 else p.frag,
           if p.cbr != 'Y' && p.cbr != 'N' then 'N' else p.cbr,
           if p.pad != 'Y' && p.pad != 'N' then 'N' else p.pad)
  }

  /** The ranges the fragment and pacing theorems ask for. */
  predicate InRange(p: Params)
  {
    1 <= p.mbps <= 15 && 64 <= p.frag <= 1200 && p.cbr in {'Y', 'N'} && p.pad in {'Y', 'N'}
  }

  /** What is asked for is granted where it is in range; 5 Mbps, 1024 bytes and no are the
      defaults for what is not. */
  ghost predicate Granted(asked: Params, got: Params)
  {
    && got.mbps == (if asked.mbps in {1, 2, 3, 4, 5, 6, 7, 8, 9, 10, 11, 12, 13, 14, 15} then asked.mbps else 5)
    && (64 <= asked.frag <= 1200 ==> got.frag == asked.frag) && (asked.frag < 64 || 1200 < asked.frag ==> got.frag == 1024)
    && (got.cbr == 'Y' <==> asked.cbr == 'Y') && (got.pad == 'Y' <==> asked.pad == 'Y') && InRange(got)
  }

  function Zeroed(v: View): View { View(0, seq(|v.seen|, _ => false)) }

  /** A replay window that has accepted nothing. */
  ghost predicate Unused(v: View)
  {
    v.recvMax == 0 && forall d :: 0 <= d < |v.seen| ==> !v.seen[d]
  }

  /** `assign_vpn_ip_to_session`: 10.10.0.(2 + index), the last part in one byte. */
  function VpnIp(i: nat): Ip { Ip(10, 10, 0, (2 + i) % 256) }

  function InactiveFrom(t: seq<Slot>, i: nat): (j: nat)
    requires i <= |t|
    ensures i <= j <= |t| && (j < |t| ==> !t[j].active)
    ensures forall k :: i <= k < j ==> t[k].active
    decreases |t| - i
  {
    if i == |t| || !t[i].active then i else InactiveFrom(t, i + 1)
  }

  /** First active slot from i on, other than `not`, with the client address. */
  function AddrFrom(t: seq<Slot>, addr: Addr, not: int, i: nat): (j: nat)
    requires i <= |t|
    ensures i <= j <= |t| && (j < |t| ==> t[j].active && t[j].addr == addr && j != not)
    ensures forall k :: i <= k < j ==> !(t[k].active && t[k].addr == addr && k != not)
    decreases |t| - i
  {
    if i == |t| || (t[i].active && t[i].addr == addr && i != not) then i else AddrFrom(t, addr, not, i + 1)
  }

  function Allocate(t: seq<Slot>): nat { InactiveFrom(t, 0) }

  function ByAddr(t: seq<Slot>, addr: Addr): nat { AddrFrom(t, addr, -1, 0) }

  /** A slot after free_session or expiry: client address, window and parameters stay behind. */
  function Freed(s: Slot): Slot
  {
    s.(active := false, keys := NO_KEYS, vpnIp := NO_IP, lastActivity := 0, sendSeq := 0)
  }

  /** Keys, id, VPN address, numbering and activity all zero. */
  ghost predicate Wiped(s: Slot)
  {
    s.keys == Keys(Zeros(16), 0, 0) && s.vpnIp == Ip(0, 0, 0, 0) && s.sendSeq == 0 && s.lastActivity == 0
  }

  /** A slot whose client came back with a new handshake: keys wiped, slot released. */
  function Replaced(s: Slot): Slot { s.(active := false, keys := NO_KEYS) }

  /** The slot as allocation, address assignment and parameter parsing leave it. */
  function Prepared(s: Slot, i: nat, params: Params): Slot
  {
    s.(rw := Zeroed(s.rw), vpnIp := VpnIp(i), params := Clamped(params))
  }

  /** `handle_msg1`: once the rate limiter lets it through, take a slot with a zeroed window,
      give it its VPN address and parameters, install the keys, release the slot the same
      client held before, and only then record the client address. */
  function Msg1(t: seq<Slot>, addr: Addr, keys: Keys, params: Params, allowed: bool, dhOk: bool, now: int): seq<Slot>
  {
    var i := Allocate(t);
    if !allowed || i >= |t| then t
    else
      var u := t[i := Prepared(t[i], i, params)];
      if !dhOk then u
      else
        var v := u[i := u[i].(active := true, keys := keys, sendSeq := 0)];
        var prior := AddrFrom(v, addr, i, 0);
        var w := if prior < |v| then v[prior := Replaced(v[prior])] else v;
        w[i := w[i].(addr := addr, lastActivity := now)]
  }

  /** `handle_rehandshake_msg1`: rotate the keys of the client's slot in place. */
  function Rotate(t: seq<Slot>, i: nat, keys: Keys, now: int): seq<Slot>
    requires i < |t|
  {
    t[i := t[i].(keys := keys, sendSeq := 0, rw := Zeroed(t[i].rw), lastActivity := now)]
  }

  /** What a handshake datagram brings, and how the checks on the way answer. */
  datatype Hello = Hello(addr: Addr, keys: Keys, params: Params, allowed: bool, rotateOk: bool, dhOk: bool, now: int)

  /** The slot the handler finds for the client, under a read lock it then drops. */
  function Looked(t: seq<Slot>, addr: Addr): (found: Option<nat>)
    ensures found.Some? ==> found.value < |t| && t[found.value].active && t[found.value].addr == addr
    ensures found.None? ==> forall k :: 0 <= k < |t| ==> !(t[k].active && t[k].addr == addr)
  {
    var i := ByAddr(t, addr);
    if i < |t| then Some(i) else None
  }

  /** What it then does: rotate the keys of the slot found, without looking at it again, or make
      a new handshake when none was found or the key exchange fails. */
  function Installed(t: seq<Slot>, found: Option<nat>, h: Hello): seq<Slot>
  {
    if found.Some? && found.value < |t| && h.rotateOk then Rotate(t, found.value, h.keys, h.now)
    else Msg1(t, h.addr, h.keys, h.params, h.allowed, h.dhOk, h.now)
  }

  /** The handshake dispatch of `handle_inbound_udp` with nothing in between. */
  function Handshake(t: seq<Slot>, h: Hello): seq<Slot> { Installed(t, Looked(t, h.addr), h) }

  /** The slot a handshake keys; the length of the table when it fails. */
  function ShakenSlot(t: seq<Slot>, found: Option<nat>, h: Hello): nat
  {
    if found.Some? && found.value < |t| && h.rotateOk then found.value
    else if h.allowed && h.dhOk then Allocate(t) else |t|
  }

  function Free(t: seq<Slot>, i: nat): seq<Slot>
    requires i < |t|
  {
    if t[i].active then t[i := Freed(t[i])] else t
  }

  predicate TimedOut(s: Slot, now: int) { s.active && now - s.lastActivity > SESSION_TIMEOUT }

  function Expire(t: seq<Slot>, now: int): (r: seq<Slot>)
    ensures |r| == |t|
  {
    seq(|t|, i requires 0 <= i < |t| => if TimedOut(t[i], now) then Freed(t[i]) else t[i])
  }

  /** The slots active before and not after. */
  ghost function Ended(t: seq<Slot>, u: seq<Slot>): set<nat>
    requires |u| == |t|
  {
    set k: nat | k < |t| && t[k].active && !u[k].active
  }

  // ---------- Invariant over all runs ----------

  /** Active slot i owns 10.10.0.(2 + i) and has parameters in range, and no two active slots
      share a client address. */
  ghost predicate TableOk(t: seq<Slot>)
  {
    && |t| <= MAX_CLIENTS
    && (forall i :: 0 <= i < |t| && t[i].active ==> t[i].vpnIp == Ip(10, 10, 0, 2 + i) && InRange(t[i].params))
    && (forall i, j :: 0 <= i < j < |t| && t[i].active && t[j].active ==> t[i].addr != t[j].addr)
  }

  /** The slots, and the slot the handshake handler has found and not yet keyed; handshake jobs
      share one worker, so there is at most one. */
  datatype Server = Server(slots: seq<Slot>, found: Option<nat>)

  datatype Event =
    | Find(addr: Addr)
    | Install(hello: Hello)
    | End(i: nat)
    | ExpireAll(now: int)

  function Apply(s: Server, e: Event): (r: Server)
    ensures |r.slots| == |s.slots|
  {
    match e
    case Find(addr) => s.(found := Looked(s.slots, addr))
    case Install(h) => Server(Installed(s.slots, s.found, h), None)
    case End(i) => if i < |s.slots| then s.(slots := Free(s.slots, i)) else s
    case ExpireAll(now) => s.(slots := Expire(s.slots, now))
  }

  function Run(t: seq<Slot>, events: seq<Event>): (r: Server)
    ensures |r.slots| == |t|
  {
    if events == [] then Server(t, None) else Apply(Run(t, events[..|events| - 1]), events[|events| - 1])
  }

  lemma Msg1Ok(t: seq<Slot>, addr: Addr, keys: Keys, params: Params, allowed: bool, dhOk: bool, now: int)
    requires TableOk(t)
    ensures TableOk(Msg1(t, addr, keys, params, allowed, dhOk, now))
  {
    var i := Allocate(t);
    if allowed && i < |t| && dhOk {
      var u := t[i := Prepared(t[i], i, params)];
      var v := u[i := u[i].(active := true, keys := keys, sendSeq := 0)];
      var prior := AddrFrom(v, addr, i, 0);
      var r := Msg1(t, addr, keys, params, allowed, dhOk, now);
      forall k | 0 <= k < |t| && k != i && r[k].active
        ensures t[k].active && r[k] == t[k] && t[k].addr != addr
      {
        assert k != prior;
      }
    }
  }

  lemma ApplyOk(s: Server, e: Event)
    requires TableOk(s.slots)
    ensures TableOk(Apply(s, e).slots)
  {
    if e.Install? {
      var h := e.hello;
      Msg1Ok(s.slots, h.addr, h.keys, h.params, h.allowed, h.dhOk, h.now);
    }
  }

  /** What ending a session does: its slot becomes inactive and is wiped, an inactive or missing
      one is left alone, and so is every other slot and the handler's find. */
  lemma EndWipes(s: Server, i: nat)
    ensures var r := Apply(s, End(i));
            r.found == s.found && (forall k :: 0 <= k < |s.slots| && (k != i || !s.slots[k].active) ==> r.slots[k] == s.slots[k]) &&
            (i < |s.slots| && s.slots[i].active ==> !r.slots[i].active && Wiped(r.slots[i]))
  {
  }

  /** In every run from an empty table, with sessions ending at any point of a handshake, no two
      active sessions share a client address and each owns the VPN address of its slot. */
  lemma {:induction false} RunOk(t: seq<Slot>, events: seq<Event>)
    requires |t| <= MAX_CLIENTS && forall i :: 0 <= i < |t| ==> !t[i].active
    ensures TableOk(Run(t, events).slots)
  {
    if events != [] {
      RunOk(t, events[..|events| - 1]);
      ApplyOk(Run(t, events[..|events| - 1]), events[|events| - 1]);
    }
  }

  /** The last keys slot i got were written while it was inactive, and it was not active since:
      its session ended between the find and the install of a rotation. */
  ghost predicate Stray(t: seq<Slot>, events: seq<Event>, i: nat)
    requires i < |t|
  {
    events != [] &&
    var n := |events| - 1;
    var before, after := Run(t, events[..n]), Run(t, events);
    if events[n].Install? && events[n].hello.rotateOk && before.found == Some(i) then !before.slots[i].active
    else !before.slots[i].active && !after.slots[i].active && Stray(t, events[..n], i)
  }

  ghost predicate RealKeys(events: seq<Event>)
  {
    forall n :: 0 <= n < |events| && events[n].Install? ==> events[n].hello.keys != NO_KEYS
  }

  lemma InstalledKeys(t: seq<Slot>, found: Option<nat>, h: Hello, i: nat)
    requires i < |t|
    ensures var r := Installed(t, found, h);
            |r| == |t| &&
            (h.rotateOk && found == Some(i) ==> r[i].keys == h.keys && r[i].active == t[i].active) &&
            (!(h.rotateOk && found == Some(i)) && !r[i].active ==> r[i].keys == if t[i].active then NO_KEYS else t[i].keys)
  {
  }

  /** Which ended sessions leave keys behind: in every run an inactive slot holds keys if and only
      if a rotation found it active and installed its keys after the session had ended. */
  lemma {:induction false} KeysLeftIff(t: seq<Slot>, events: seq<Event>, i: nat)
    requires i < |t| && !t[i].active && t[i].keys == NO_KEYS && RealKeys(events)
    ensures var s := Run(t, events).slots[i]; !s.active ==> (s.keys != NO_KEYS <==> Stray(t, events, i))
  {
    if events != [] {
      var n := |events| - 1;
      KeysLeftIff(t, events[..n], i);
      if events[n].Install? {
        var before := Run(t, events[..n]);
        InstalledKeys(before.slots, before.found, events[n].hello, i);
      }
    }
  }

  /** The failing run: a session expires between the find and the install of its own rotation,
      and its slot, inactive, holds the new keys. */
  lemma {:induction false} RotatedTooLate(t: seq<Slot>, h: Hello, g: Hello, late: int, events: seq<Event>)
    requires |t| > 0 && !t[0].active && t[0].keys == NO_KEYS && (forall k :: 0 <= k < |t| ==> !t[k].active)
    requires h.allowed && h.dhOk && g.rotateOk && late - h.now > SESSION_TIMEOUT
    requires events == [Install(h), Find(h.addr), ExpireAll(late), Install(g)]
    ensures var s := Run(t, events).slots[0]; !s.active && s.keys == g.keys
  {
    var a := Apply(Server(t, None), Install(h));
    assert a.slots[0].active && a.slots[0].addr == h.addr && a.slots[0].lastActivity == h.now;
    var b := Apply(a, Find(h.addr));
    assert b.found == Some(0);
    var c := Apply(b, ExpireAll(late));
    assert !c.slots[0].active && c.found == Some(0);
    var none: seq<Event> := [];
    assert events[..3] == [Install(h), Find(h.addr), ExpireAll(late)] && events[..3][..2] == [Install(h), Find(h.addr)];
    assert events[..3][..2][..1] == [Install(h)] && events[..3][..2][..1][..0] == none;
    assert Run(t, [Install(h)]) == a;
    assert Run(t, [Install(h), Find(h.addr)]) == b;
    assert Run(t, [Install(h), Find(h.addr), ExpireAll(late)]) == c;
  }

  /** VPN addresses do not overflow their last byte and no two active sessions share one. */
  lemma VpnIpsDistinct(t: seq<Slot>, i: nat, j: nat)
    requires TableOk(t) && i < j < |t| && t[i].active && t[j].active
    ensures t[i].vpnIp != t[j].vpnIp && t[i].vpnIp.d == 2 + i
  {
  }

  /** Rotating keys for a known client keeps its slot, its VPN address, its parameters and
      everybody else, and starts the numbering and the replay window afresh. */
  lemma RotationInPlace(t: seq<Slot>, h: Hello, i: nat)
    requires TableOk(t) && i < |t| && t[i].active && t[i].addr == h.addr && h.rotateOk
    ensures var r := Handshake(t, h);
            r[i].active && r[i].keys == h.keys && r[i].vpnIp == t[i].vpnIp == VpnIp(i) && r[i].addr == h.addr &&
            r[i].params == t[i].params && r[i].sendSeq == 0 && Unused(r[i].rw) && |r[i].rw.seen| == |t[i].rw.seen| &&
            r[i].lastActivity == h.now &&
            forall k :: 0 <= k < |t| && k != i ==> r[k] == t[k]
  {
    assert Looked(t, h.addr) == Some(i);
  }

  /** A new handshake that the limiter lets through, if a slot is free, leaves the client exactly
      one session with the new keys, a fresh window and parameters in range, and touches no
      session of another client. */
  lemma NewHandshake(t: seq<Slot>, addr: Addr, keys: Keys, params: Params, now: int)
    requires TableOk(t) && Allocate(t) < |t|
    ensures var r, i := Msg1(t, addr, keys, params, true, true, now), Allocate(t);
            r[i].active && r[i].keys == keys && r[i].addr == addr && r[i].vpnIp == Ip(10, 10, 0, 2 + i) &&
            r[i].sendSeq == 0 && Unused(r[i].rw) && |r[i].rw.seen| == |t[i].rw.seen| && r[i].lastActivity == now &&
            Granted(params, r[i].params) &&
            (forall k :: 0 <= k < |t| && k != i && r[k].active ==> r[k] == t[k] && t[k].addr != addr) &&
            (forall k :: 0 <= k < |t| && t[k].active && t[k].addr != addr ==> r[k] == t[k])
  {
    Msg1Ok(t, addr, keys, params, true, true, now);
  }

  /** A handshake that is refused, by the limiter, a full table or failing cryptography, starts
      no session and ends none. */
  lemma RefusedHandshake(t: seq<Slot>, h: Hello)
    requires ShakenSlot(t, Looked(t, h.addr), h) >= |t|
    ensures var r := Handshake(t, h);
            |r| == |t| && forall k :: 0 <= k < |t| ==> r[k].active == t[k].active && (t[k].active ==> r[k] == t[k])
  {
  }

  // ---------- The table itself ----------

  class Sessions {
    const slots: array<Slot>

    /** `width` is the size of a replay window. */
    constructor (width: nat)
      requires width > 0
      ensures fresh(slots) && slots.Length == 250
      ensures TableOk(slots[..]) && forall i :: 0 <= i < slots.Length ==> !slots[i].active && slots[i].keys == NO_KEYS
    {
      var v := View(0, seq(width, _ => false));
      slots := new Slot[MAX_CLIENTS](_ => Slot(false, NO_KEYS, NO_IP, Addr(0, 0), 0, 0, v, Params(0, 0, 'N', 'N')));
    }

    /** `allocate_session`: the first inactive slot, its window zeroed; -1 when all are taken. */
    method AllocateSlot() returns (j: int)
      modifies slots
      ensures j == if Allocate(old(slots[..])) < slots.Length then Allocate(old(slots[..])) else -1
      ensures j == -1 ==> slots[..] == old(slots[..]) && forall k :: 0 <= k < slots.Length ==> slots[k].active
      ensures j >= 0 ==> !slots[j].active && Unused(slots[j].rw) && forall k :: 0 <= k < j ==> slots[k].active
      ensures j >= 0 ==> slots[..] == old(slots[..])[j := old(slots[j]).(rw := Zeroed(old(slots[j]).rw))]
    {
      j := 0;
      while j < slots.Length
        invariant 0 <= j <= slots.Length && slots[..] == old(slots[..])
        invariant forall k :: 0 <= k < j ==> slots[..][k].active
      {
        if !slots[j].active {
          slots[j] := slots[j].(rw := Zeroed(slots[j].rw));
          return;
        }
        j := j + 1;
      }
      j := -1;
    }

    /** `session_by_vpnip`: the first active slot with the address, which in any table a run can
        reach is the one owner. */
    method ByVpnIp(ip: Ip) returns (j: int)
      ensures j == -1 || (0 <= j < slots.Length && slots[j].active && slots[j].vpnIp == ip)
      ensures forall i :: 0 <= i < (if j == -1 then slots.Length else j) ==> !(slots[i].active && slots[i].vpnIp == ip)
      ensures TableOk(slots[..]) ==>
                forall i :: 0 <= i < slots.Length ==> (j == i <==> slots[i].active && slots[i].vpnIp == ip)
    {
      j := 0;
      while j < slots.Length
        invariant 0 <= j <= slots.Length
        invariant forall k :: 0 <= k < j ==> !(slots[k].active && slots[k].vpnIp == ip)
      {
        if slots[j].active && slots[j].vpnIp == ip {
          forall i | TableOk(slots[..]) && j < i < slots.Length && slots[i].active
            ensures slots[i].vpnIp != ip
          {
            VpnIpsDistinct(slots[..], j, i);
          }
          return;
        }
        j := j + 1;
      }
      j := -1;
    }

    method FindAddr(addr: Addr, not: int) returns (j: nat)
      ensures j == AddrFrom(slots[..], addr, not, 0)
    {
      j := 0;
      while j < slots.Length
        invariant 0 <= j <= slots.Length
        invariant forall k :: 0 <= k < j ==> !(slots[..][k].active && slots[..][k].addr == addr && k != not)
      {
        if j != not && slots[j].active && slots[j].addr == addr { return; }
        j := j + 1;
      }
    }

    /** `free_session`: afterwards the slot is inactive and, if it was not already, its keys,
        VPN address and numbering are wiped; no other slot is touched, and a table in order stays
        in order. */
    method FreeSession(i: nat)
      requires i < slots.Length
      modifies slots
      ensures slots[..] == Free(old(slots[..]), i)
      ensures !slots[i].active && forall k :: 0 <= k < slots.Length && k != i ==> slots[k] == old(slots[k])
      ensures old(slots[i].active) ==> Wiped(slots[i])
      ensures !old(slots[i].active) ==> slots[i] == old(slots[i])
      ensures old(TableOk(slots[..])) ==> TableOk(slots[..])
    {
      if slots[i].active { slots[i] := Freed(slots[i]); }
    }

    /** `cleanup_expired_sessions`: exactly the active sessions not heard from for more than 60
        seconds end, wiped, and their number is returned; no other slot is touched. */
    method CleanupExpired(now: int) returns (freed: nat)
      modifies slots
      ensures slots[..] == Expire(old(slots[..]), now)
      ensures forall k :: 0 <= k < slots.Length && (!old(slots[k]).active || now - old(slots[k]).lastActivity <= 60) ==>
                slots[k] == old(slots[k])
      ensures forall k :: 0 <= k < slots.Length && old(slots[k]).active && now - old(slots[k]).lastActivity > 60 ==>
                !slots[k].active && Wiped(slots[k])
      ensures freed == |Ended(old(slots[..]), slots[..])|
    {
      freed := 0;
      var i := 0;
      ghost var t := slots[..];
      ghost var ended: set<nat> := {};
      while i < slots.Length
        invariant 0 <= i <= slots.Length
        invariant forall k :: 0 <= k < i ==> slots[k] == if TimedOut(t[k], now) then Freed(t[k]) else t[k]
        invariant forall k :: i <= k < slots.Length ==> slots[k] == t[k]
        invariant freed == |ended| && forall k :: k in ended <==> 0 <= k < i && t[k].active && !slots[k].active
      {
        if slots[i].active && now - slots[i].lastActivity > SESSION_TIMEOUT {
          slots[i] := Freed(slots[i]);
          freed := freed + 1;
          ended := ended + {i};
        }
        i := i + 1;
      }
      assert Ended(t, slots[..]) == ended;
    }

    method HandleMsg1(addr: Addr, keys: Keys, params: Params, allowed: bool, dhOk: bool, now: int) returns (rc: int)
      modifies slots
      ensures slots[..] == Msg1(old(slots[..]), addr, keys, params, allowed, dhOk, now)
      ensures rc == 0 <==> allowed && dhOk && Allocate(old(slots[..])) < slots.Length
    {
      if !allowed { return -1; }
      var i := AllocateSlot();
      if i < 0 { return -1; }
      slots[i] := slots[i].(vpnIp := VpnIp(i));
      slots[i] := slots[i].(params := Clamped(params));
      ghost var t := old(slots[..]);
      ghost var u := t[i := Prepared(t[i], i, params)];
      assert slots[..] == u;
      if !dhOk { return -1; }
      slots[i] := slots[i].(active := true, keys := keys, sendSeq := 0);
      assert slots[..] == u[i := u[i].(active := true, keys := keys, sendSeq := 0)];
      var prior := FindAddr(addr, i);
      if prior < slots.Length { slots[prior] := Replaced(slots[prior]); }
      slots[i] := slots[i].(addr := addr, lastActivity := now);
      rc := 0;
    }

    method HandleHandshake(h: Hello) returns (rc: int)
      modifies slots
      ensures slots[..] == Handshake(old(slots[..]), h)
      ensures rc == 0 <==> ShakenSlot(old(slots[..]), Looked(old(slots[..]), h.addr), h) < slots.Length
    {
      var i := FindAddr(h.addr, -1);
      if i < slots.Length && h.rotateOk {
        slots[i] := slots[i].(keys := h.keys);
        slots[i] := slots[i].(sendSeq := 0, rw := Zeroed(slots[i].rw), lastActivity := h.now);
        return 0;
      }
      rc := HandleMsg1(h.addr, h.keys, h.params, h.allowed, h.dhOk, h.now);
    }
  }
}
