/** What the rate limiter guarantees over whole runs, with any number of addresses, cleanups
    and manual blacklistings in between. */
module RateBounds {
  import opened RateLimiter

  /** The limiter's state, and the calls made to it, each with its clock reading. */
  datatype State = State(table: seq<Entry>, lastCleanup: int)

  datatype Call =
    | CheckLimit(ip: nat, kind: Kind, now: int)
    | CleanUp(now: int)
    | Ban(ip: nat, now: int)

  function Apply(s: State, c: Call, capacity: nat): State
  {
    match c
    case CheckLimit(ip, k, now) => s.(table := CheckTable(s.table, ip, k, now, capacity).0)
    case CleanUp(now) =>
      if now - s.lastCleanup < CLEANUP_INTERVAL then s else State(Kept(s.table, now), now)
    case Ban(ip, now) => s.(table := BlacklistTable(s.table, ip, now, capacity))
  }

  function Run(s: State, calls: seq<Call>, capacity: nat): State
    decreases |calls|
  {
    if calls == [] then s else Run(Apply(s, calls[0], capacity), calls[1..], capacity)
  }

  ghost predicate OnePerAddress(t: seq<Entry>)
  {
    forall i, j :: 0 <= i < j < |t| ==> t[i].ip != t[j].ip
  }

  ghost predicate BucketOk(b: Bucket, k: Kind, seen: int)
  {
    b.tokens <= Burst(k) && b.lastRefill <= seen
  }

  ghost predicate EntryOk(e: Entry, clock: int)
  {
    e.lastSeen <= clock && BucketOk(e.handshake, Handshake, e.lastSeen) && BucketOk(e.packet, Packet, e.lastSeen)
  }

  /** Invariant: one entry per address, no more than the capacity, clocks in the past. */
  ghost predicate TableOk(t: seq<Entry>, clock: int, capacity: nat)
  {
    OnePerAddress(t) && |t| <= capacity && forall i :: 0 <= i < |t| ==> EntryOk(t[i], clock)
  }

  // ---------- Preservation ----------

  /** A cleanup drops exactly the entries not seen for 300 seconds whose ban, if any, is over. */
  lemma {:induction false} KeptFacts(t: seq<Entry>, now: int)
    ensures forall e :: e in Kept(t, now) <==> e in t && (now - e.lastSeen < 300 || e.blacklistUntil > now)
    ensures OnePerAddress(t) ==> OnePerAddress(Kept(t, now))
  {
    if t != [] {
      var n := |t| - 1;
      KeptFacts(t[..n], now);
      assert t == t[..n] + [t[n]];
      var r := Kept(t[..n], now);
      assert forall i :: 0 <= i < |r| ==> r[i] in t[..n];
    }
  }

  /** It keeps the others in their order, each as often as before. */
  lemma {:induction false} KeptInOrder(t: seq<Entry>, u: seq<Entry>, e: Entry, now: int)
    ensures Kept(t + u, now) == Kept(t, now) + Kept(u, now)
    ensures Kept([e], now) == if now - e.lastSeen < 300 || e.blacklistUntil > now then [e] else []
  {
    assert Kept([e], now) == if Keep(e, now) then [] + [e] else [];
    if u == [] {
      assert t + u == t;
    } else {
      var n := |u| - 1;
      KeptInOrder(t, u[..n], e, now);
      assert (t + u)[..|t| + n] == t + u[..n] && (t + u)[|t| + n] == u[n];
    }
  }

  /** A cleanup call does this at most every 10 seconds, and otherwise nothing. */
  lemma CleanupWhen(s: State, now: int, capacity: nat)
    ensures var r := Apply(s, CleanUp(now), capacity);
            (forall e :: e in r.table <==>
               e in s.table && (now - s.lastCleanup < 10 || now - e.lastSeen < 300 || e.blacklistUntil > now)) &&
            (now - s.lastCleanup < 10 ==> r == s) && (now - s.lastCleanup >= 10 ==> r.lastCleanup == now)
  {
    KeptFacts(s.table, now);
  }

  /** Violations are counted in 32 bits. */
  lemma ViolationsCounted(e: Entry, k: Kind, now: int)
    requires e.blacklistUntil <= now && e.Of(k).violations < 0x1_0000_0000
    ensures var r, was := CheckEntry(e, k, now), e.Of(k).violations;
            r.0.Of(k).violations == if r.1 == Ok then was else if was == 0xFFFF_FFFF then 0 else was + 1
  {
  }

  lemma TouchOk(t: seq<Entry>, ip: nat, clock: int, now: int, capacity: nat)
    requires TableOk(t, clock, capacity) && clock <= now
    ensures TableOk(Touch(t, ip, now, capacity), now, capacity)
    ensures forall e :: e in Touch(t, ip, now, capacity) && e.ip == ip ==> e.lastSeen == now
  {
  }

  lemma CheckEntryOk(e: Entry, k: Kind, now: int)
    requires EntryOk(e, now) && e.lastSeen == now
    ensures EntryOk(CheckEntry(e, k, now).0, now) && CheckEntry(e, k, now).0.ip == e.ip
  {
  }

  /** Every call keeps the invariant. */
  lemma ApplyOk(s: State, c: Call, clock: int, capacity: nat)
    requires TableOk(s.table, clock, capacity) && clock <= c.now
    ensures TableOk(Apply(s, c, capacity).table, c.now, capacity)
  {
    match c {
      case CheckLimit(ip, k, now) =>
        TouchOk(s.table, ip, clock, now, capacity);
        var u := Touch(s.table, ip, now, capacity);
        var j := Index(u, ip);
        if j < |u| {
          assert u[j] in u;
          CheckEntryOk(u[j], k, now);
        }
      case CleanUp(now) =>
        KeptFacts(s.table, now);
        var r := Kept(s.table, now);
        assert forall i :: 0 <= i < |r| ==> r[i] in s.table;
      case Ban(ip, now) =>
        TouchOk(s.table, ip, clock, now, capacity);
    }
  }

  // ---------- Token levels ----------

  /** Tokens an address would have if its bucket were refilled now; full when it has no entry. */
  ghost function Level(t: seq<Entry>, ip: nat, k: Kind, now: int): int
  {
    var j := Index(t, ip);
    if j == |t| then Burst(k) else BucketLevel(t[j].Of(k), k, now)
  }

  ghost function BucketLevel(b: Bucket, k: Kind, now: int): int
  {
    Capped(b.tokens + (now - b.lastRefill) * Rate(k), Burst(k))
  }

  lemma IndexUpdate(t: seq<Entry>, j: nat, e: Entry, ip: nat)
    requires j < |t| && e.ip == t[j].ip
    ensures Index(t[j := e], ip) == Index(t, ip)
  {
    var u := t[j := e];
    var a, b := Index(u, ip), Index(t, ip);
    assert a < |t| ==> t[a].ip == ip;
    assert b < |t| ==> u[b].ip == ip;
  }

  lemma IndexAppend(t: seq<Entry>, e: Entry, ip: nat)
    requires Index(t, e.ip) == |t|
    ensures Index(t + [e], ip) == if ip == e.ip then |t| else if Index(t, ip) == |t| then |t| + 1 else Index(t, ip)
  {
    var u := t + [e];
    var a, b := Index(u, ip), Index(t, ip);
    assert a < |t| ==> t[a].ip == ip;
    assert b < |t| ==> u[b].ip == ip;
    assert u[|t|].ip == e.ip;
  }

  lemma TouchLevel(t: seq<Entry>, ip0: nat, now: int, capacity: nat, ip: nat, k: Kind)
    ensures Level(Touch(t, ip0, now, capacity), ip, k, now) == Level(t, ip, k, now)
  {
    var j := Index(t, ip0);
    if j < |t| {
      IndexUpdate(t, j, t[j].(lastSeen := now), ip);
    } else if |t| < capacity {
      IndexAppend(t, NewEntry(ip0, now), ip);
    }
  }

  /** A check spends one token exactly when it says OK. */
  lemma CheckEntryLevel(e: Entry, k0: Kind, now: int, k: Kind)
    requires EntryOk(e, now)
    ensures var r := CheckEntry(e, k0, now);
            BucketLevel(r.0.Of(k), k, now) == BucketLevel(e.Of(k), k, now) - if k == k0 && r.1.Ok? then 1 else 0
  {
  }

  /** An entry idle long enough to be dropped would have been full anyway. */
  lemma EvictedFull(e: Entry, now: int, k: Kind)
    requires EntryOk(e, now) && !Keep(e, now)
    ensures BucketLevel(e.Of(k), k, now) == Burst(k)
  {
    assert now - e.Of(k).lastRefill >= IDLE_LIMIT;
  }

  lemma KeptLevel(t: seq<Entry>, clock: int, now: int, capacity: nat, ip: nat, k: Kind)
    requires TableOk(t, clock, capacity) && clock <= now
    ensures Level(Kept(t, now), ip, k, now) == Level(t, ip, k, now)
  {
    KeptFacts(t, now);
    var r := Kept(t, now);
    var i, j := Index(r, ip), Index(t, ip);
    if i < |r| {
      assert r[i] in t;
    }
    if j < |t| {
      if Keep(t[j], now) { assert t[j] in r; } else { EvictedFull(t[j], now, k); }
    }
  }

  ghost predicate Approved(s: State, c: Call, capacity: nat, ip: nat, k: Kind)
  {
    c.CheckLimit? && c.ip == ip && c.kind == k && CheckTable(s.table, ip, k, c.now, capacity).1.Ok?
  }

  /** Conservation: no call changes any token level, except that an approval spends one token. */
  lemma ApplyLevel(s: State, c: Call, clock: int, capacity: nat, ip: nat, k: Kind)
    requires TableOk(s.table, clock, capacity) && clock <= c.now
    ensures Level(Apply(s, c, capacity).table, ip, k, c.now) ==
            Level(s.table, ip, k, c.now) - if Approved(s, c, capacity, ip, k) then 1 else 0
  {
    match c {
      case CheckLimit(ip0, k0, now) =>
        CheckLevel(s.table, ip0, k0, clock, now, capacity, ip, k);
      case CleanUp(now) =>
        KeptLevel(s.table, clock, now, capacity, ip, k);
      case Ban(ip0, now) =>
        TouchLevel(s.table, ip0, now, capacity, ip, k);
        var u := Touch(s.table, ip0, now, capacity);
        var j := Index(u, ip0);
        if j < |u| { IndexUpdate(u, j, u[j].(blacklistUntil := now + BLACKLIST_DURATION), ip); }
    }
  }

  lemma CheckLevel(t: seq<Entry>, ip0: nat, k0: Kind, clock: int, now: int, capacity: nat, ip: nat, k: Kind)
    requires TableOk(t, clock, capacity) && clock <= now
    ensures var r := CheckTable(t, ip0, k0, now, capacity);
            Level(r.0, ip, k, now) == Level(t, ip, k, now) - if ip == ip0 && k == k0 && r.1.Ok? then 1 else 0
  {
    TouchOk(t, ip0, clock, now, capacity);
    TouchLevel(t, ip0, now, capacity, ip, k);
    var u := Touch(t, ip0, now, capacity);
    var j := Index(u, ip0);
    if j < |u| {
      CheckEntryLevel(u[j], k0, now, k);
      IndexUpdate(u, j, CheckEntry(u[j], k0, now).0, ip);
    }
  }

  lemma LevelGrows(t: seq<Entry>, ip: nat, k: Kind, from: int, to: int)
    requires from <= to
    ensures Level(t, ip, k, to) <= Level(t, ip, k, from) + (to - from) * Rate(k)
  {
    LevelLater(t, ip, k, from, to);
  }

  lemma LevelLater(t: seq<Entry>, ip: nat, k: Kind, from: int, to: int)
    requires from <= to
    ensures Level(t, ip, k, to) == Capped(Level(t, ip, k, from) + (to - from) * Rate(k), Burst(k))
  {
    var j := Index(t, ip);
    assert (to - from) * Rate(k) >= 0;
    if j < |t| {
      var b := t[j].Of(k);
      assert (to - b.lastRefill) * Rate(k) == (from - b.lastRefill) * Rate(k) + (to - from) * Rate(k);
    }
  }

  /** Left alone, a level grows by 5 handshakes or 1000 packets a second, up to 10 or 2000. */
  lemma LevelRefills(t: seq<Entry>, ip: nat, from: int, to: int)
    requires from <= to
    ensures var first, later := Level(t, ip, Handshake, from), Level(t, ip, Handshake, to);
            later <= 10 && later <= first + 5 * (to - from) && (later == 10 || later == first + 5 * (to - from))
    ensures var first, later := Level(t, ip, Packet, from), Level(t, ip, Packet, to);
            later <= 2000 && later <= first + 1000 * (to - from) && (later == 2000 || later == first + 1000 * (to - from))
  {
    LevelLater(t, ip, Handshake, from, to);
    LevelLater(t, ip, Packet, from, to);
  }

  /** The whole answer of a check: a full table refuses an unknown address, a running ban answers
      BLACKLISTED, and otherwise a token is granted exactly when there is one; without one the
      answer is EXCEEDED up to the 50th (500th) violation and a ban after it. */
  lemma CheckAnswers(t: seq<Entry>, ip: nat, k: Kind, clock: int, now: int, capacity: nat)
    requires TableOk(t, clock, capacity) && 0 <= clock <= now
    ensures var v, j := CheckTable(t, ip, k, now, capacity).1, Index(t, ip);
            if j == |t| == capacity then v == Exceeded
            else if j < |t| && t[j].blacklistUntil > now then v == Blacklisted
            else (v == Ok <==> Level(t, ip, k, now) >= 1) &&
                 (j < |t| && Level(t, ip, k, now) < 1 && t[j].Of(k).violations < 0xFFFF_FFFF ==>
                    (v == Exceeded <==> t[j].Of(k).violations < if k.Handshake? then 50 else 500))
  {
    if Index(t, ip) < |t| {
      IndexUpdate(t, Index(t, ip), t[Index(t, ip)].(lastSeen := now), ip);
    } else if |t| < capacity {
      IndexAppend(t, NewEntry(ip, now), ip);
    }
  }

  lemma LevelRange(t: seq<Entry>, clock: int, capacity: nat, ip: nat, k: Kind)
    requires TableOk(t, clock, capacity)
    ensures 0 <= Level(t, ip, k, clock) <= Burst(k)
  {
    var j := Index(t, ip);
    if j < |t| {
      assert EntryOk(t[j], clock);
    }
  }

  // ---------- Runs ----------

  /** Calls made between two instants, in time order. */
  ghost predicate Timed(calls: seq<Call>, from: int, to: int)
  {
    && from <= to
    && (forall i :: 0 <= i < |calls| ==> from <= calls[i].now <= to)
    && (forall i, j :: 0 <= i < j < |calls| ==> calls[i].now <= calls[j].now)
  }

  ghost function Approvals(s: State, calls: seq<Call>, capacity: nat, ip: nat, k: Kind): nat
    decreases |calls|
  {
    if calls == [] then 0
    else (if Approved(s, calls[0], capacity, ip, k) then 1 else 0) + Approvals(Apply(s, calls[0], capacity), calls[1..], capacity, ip, k)
  }

  lemma {:induction false} RunOk(s: State, calls: seq<Call>, from: int, to: int, capacity: nat)
    requires TableOk(s.table, from, capacity) && Timed(calls, from, to)
    ensures TableOk(Run(s, calls, capacity).table, to, capacity)
    decreases |calls|
  {
    if calls != [] {
      ApplyOk(s, calls[0], from, capacity);
      RunOk(Apply(s, calls[0], capacity), calls[1..], calls[0].now, to, capacity);
    }
  }

  lemma {:induction false} Spending(s: State, calls: seq<Call>, from: int, to: int, capacity: nat, ip: nat, k: Kind)
    requires TableOk(s.table, from, capacity) && Timed(calls, from, to)
    ensures Approvals(s, calls, capacity, ip, k) <= Level(s.table, ip, k, from) + (to - from) * Rate(k)
    decreases |calls|
  {
    LevelRange(s.table, from, capacity, ip, k);
    if calls != [] {
      var c := calls[0];
      var next := Apply(s, c, capacity);
      ApplyOk(s, c, from, capacity);
      ApplyLevel(s, c, from, capacity, ip, k);
      LevelGrows(s.table, ip, k, from, c.now);
      Spending(next, calls[1..], c.now, to, capacity, ip, k);
      assert (to - from) * Rate(k) == (c.now - from) * Rate(k) + (to - c.now) * Rate(k);
    }
  }

  lemma BucketBound(before: seq<Call>, calls: seq<Call>, start: int, from: int, span: nat, capacity: nat, ip: nat, k: Kind)
    requires Timed(before, start, from) && Timed(calls, from, from + span)
    ensures Approvals(Run(State([], start), before, capacity), calls, capacity, ip, k) <= Burst(k) + span * Rate(k)
  {
    var s := Run(State([], start), before, capacity);
    RunOk(State([], start), before, start, from, capacity);
    Spending(s, calls, from, from + span, capacity, ip, k);
    LevelRange(s.table, from, capacity, ip, k);
  }

  /** Token-bucket bound over whole runs: whatever happened before, an address gets in any T
      seconds at most 10 + 5T handshake and 2000 + 1000T packet approvals. */
  lemma ApprovalBound(before: seq<Call>, calls: seq<Call>, start: int, from: int, span: nat, capacity: nat, ip: nat, k: Kind)
    requires Timed(before, start, from) && Timed(calls, from, from + span)
    ensures var n := Approvals(Run(State([], start), before, capacity), calls, capacity, ip, k);
            if k.Handshake? then n <= 10 + 5 * span else n <= 2000 + 1000 * span
  {
    BucketBound(before, calls, start, from, span, capacity, ip, k);
  }

  // ---------- Blacklist ----------

  ghost predicate BannedUntil(t: seq<Entry>, ip: nat, until: int)
  {
    var j := Index(t, ip);
    j < |t| && t[j].blacklistUntil >= until
  }

  ghost predicate BannedExactly(t: seq<Entry>, ip: nat, until: int)
  {
    var j := Index(t, ip);
    j < |t| && t[j].blacklistUntil == until
  }

  lemma TouchBanned(t: seq<Entry>, ip0: nat, now: int, capacity: nat, ip: nat, until: int)
    requires BannedUntil(t, ip, until)
    ensures BannedUntil(Touch(t, ip0, now, capacity), ip, until)
  {
    var j := Index(t, ip0);
    if j < |t| {
      IndexUpdate(t, j, t[j].(lastSeen := now), ip);
    } else if |t| < capacity {
      IndexAppend(t, NewEntry(ip0, now), ip);
    }
  }

  /** Before the ban ends, a check of the address says BLACKLISTED and no call lifts the ban. */
  lemma ApplyBanned(s: State, c: Call, clock: int, capacity: nat, ip: nat, until: int)
    requires TableOk(s.table, clock, capacity) && clock <= c.now < until && BannedUntil(s.table, ip, until)
    requires until <= c.now + BLACKLIST_DURATION
    ensures BannedUntil(Apply(s, c, capacity).table, ip, until)
    ensures c.CheckLimit? && c.ip == ip ==> CheckTable(s.table, ip, c.kind, c.now, capacity).1.Blacklisted?
  {
    match c {
      case CheckLimit(ip0, k0, now) =>
        TouchBanned(s.table, ip0, now, capacity, ip, until);
        var u := Touch(s.table, ip0, now, capacity);
        var j := Index(u, ip0);
        if j < |u| { IndexUpdate(u, j, CheckEntry(u[j], k0, now).0, ip); }
      case CleanUp(now) =>
        KeptFacts(s.table, now);
        var j := Index(s.table, ip);
        var r := Kept(s.table, now);
        assert s.table[j] in r;
        var i :| 0 <= i < |r| && r[i] == s.table[j];
        assert Index(r, ip) == i;
      case Ban(ip0, now) =>
        TouchBanned(s.table, ip0, now, capacity, ip, until);
        var u := Touch(s.table, ip0, now, capacity);
        var j := Index(u, ip0);
        if j < |u| { IndexUpdate(u, j, u[j].(blacklistUntil := now + BLACKLIST_DURATION), ip); }
    }
  }

  /** Every check of the address among the calls answers BLACKLISTED. */
  ghost predicate AllRefused(s: State, calls: seq<Call>, capacity: nat, ip: nat)
    decreases |calls|
  {
    calls == [] ||
    ((calls[0].CheckLimit? && calls[0].ip == ip ==> CheckTable(s.table, ip, calls[0].kind, calls[0].now, capacity).1.Blacklisted?) &&
     AllRefused(Apply(s, calls[0], capacity), calls[1..], capacity, ip))
  }

  /** Once an address is blacklisted at time t, every check of it before t + 60 answers
      BLACKLISTED, whatever other checks, bans and cleanups run in between. */
  lemma {:induction false} BanHolds(s: State, calls: seq<Call>, at: int, from: int, to: int, capacity: nat, ip: nat)
    requires TableOk(s.table, from, capacity) && Timed(calls, from, to) && at <= from && to < at + 60
    requires BannedUntil(s.table, ip, at + 60)
    ensures AllRefused(s, calls, capacity, ip)
    decreases |calls|
  {
    if calls != [] {
      var c := calls[0];
      ApplyOk(s, c, from, capacity);
      ApplyBanned(s, c, from, capacity, ip, at + 60);
      BanHolds(Apply(s, c, capacity), calls[1..], at, c.now, to, capacity, ip);
    }
  }

  /** A check that answers BLACKLISTED either met a running ban or started one of 60 seconds. */
  lemma CheckBans(t: seq<Entry>, ip: nat, k: Kind, now: int, capacity: nat)
    requires now >= 0 && CheckTable(t, ip, k, now, capacity).1.Blacklisted?
    ensures BannedUntil(t, ip, now + 1) || BannedExactly(CheckTable(t, ip, k, now, capacity).0, ip, now + 60)
  {
    var u := Touch(t, ip, now, capacity);
    var j := Index(u, ip);
    IndexUpdate(u, j, CheckEntry(u[j], k, now).0, ip);
    if Index(t, ip) < |t| {
      IndexUpdate(t, Index(t, ip), t[Index(t, ip)].(lastSeen := now), ip);
    } else if |t| < capacity {
      IndexAppend(t, NewEntry(ip, now), ip);
    }
  }

  /** `blacklist_ip` takes effect if and only if the address is in the table or there is room. */
  lemma ManualBanIff(s: State, ip: nat, now: int, capacity: nat, k: Kind)
    requires TableOk(s.table, now, capacity)
    ensures var t := Apply(s, Ban(ip, now), capacity).table;
            (CheckTable(t, ip, k, now, capacity).1.Blacklisted? <==>
             Index(s.table, ip) < |s.table| || |s.table| < capacity) &&
            (Index(s.table, ip) < |s.table| || |s.table| < capacity ==> BannedExactly(t, ip, now + 60))
  {
    var u := Touch(s.table, ip, now, capacity);
    if Index(s.table, ip) < |s.table| || |s.table| < capacity {
      TouchOk(s.table, ip, now, now, capacity);
      if Index(s.table, ip) < |s.table| {
        IndexUpdate(s.table, Index(s.table, ip), s.table[Index(s.table, ip)].(lastSeen := now), ip);
      } else {
        IndexAppend(s.table, NewEntry(ip, now), ip);
      }
      var j := Index(u, ip);
      IndexUpdate(u, j, u[j].(blacklistUntil := now + BLACKLIST_DURATION), ip);
      var t := Apply(s, Ban(ip, now), capacity);
      ApplyOk(s, Ban(ip, now), now, capacity);
      ApplyBanned(t, CheckLimit(ip, k, now), now, capacity, ip, now + BLACKLIST_DURATION);
    }
  }

  /** Checks of the addresses from..upTo - 1, one each. */
  function Newcomers(from: nat, upTo: nat, now: int): (calls: seq<Call>)
    requires from <= upTo
    decreases upTo - from
  {
    if from == upTo then [] else [CheckLimit(from, Handshake, now)] + Newcomers(from + 1, upTo, now)
  }

  lemma NewcomerAdded(s: State, ip: nat, now: int, capacity: nat)
    requires |s.table| == ip < capacity && forall i :: 0 <= i < ip ==> s.table[i].ip < ip
    ensures var t := Apply(s, CheckLimit(ip, Handshake, now), capacity).table;
            |t| == ip + 1 && forall i :: 0 <= i <= ip ==> t[i].ip <= ip
  {
    assert Index(s.table, ip) == |s.table|;
    IndexAppend(s.table, NewEntry(ip, now), ip);
  }

  lemma {:induction false} NewcomersFill(s: State, from: nat, now: int, capacity: nat)
    requires from <= capacity && |s.table| == from && forall i :: 0 <= i < from ==> s.table[i].ip < from
    ensures var t := Run(s, Newcomers(from, capacity, now), capacity).table;
            |t| == capacity && forall i :: 0 <= i < capacity ==> t[i].ip < capacity
    decreases capacity - from
  {
    if from < capacity {
      var c := CheckLimit(from, Handshake, now);
      NewcomerAdded(s, from, now, capacity);
      var calls := Newcomers(from, capacity, now);
      assert calls[0] == c && calls[1..] == Newcomers(from + 1, capacity, now);
      NewcomersFill(Apply(s, c, capacity), from + 1, now, capacity);
    }
  }

  /** The failing run: once as many addresses as the table holds have been seen, banning one
      more does nothing, and its next check is merely turned away. */
  lemma FullTableIgnoresBan(start: int, now: int, capacity: nat, k: Kind)
    ensures var s := Run(State([], start), Newcomers(0, capacity, now), capacity);
            var t := Apply(s, Ban(capacity, now), capacity).table;
            t == s.table && CheckTable(t, capacity, k, now, capacity).1 == Exceeded
  {
    NewcomersFill(State([], start), 0, now, capacity);
    var s := Run(State([], start), Newcomers(0, capacity, now), capacity);
    assert Index(s.table, capacity) == |s.table|;
  }

  // ---------- A flood ----------

  /** The bucket and ban of an address after n checks of it in the same second. */
  ghost predicate FloodOk(e: Entry, k: Kind, now: int, n: nat)
  {
    var passed, refused := if k.Handshake? then 10 else 2000, if k.Handshake? then 60 else 2500;
    && e.Of(k).lastRefill == now && e.Of(k).tokens == (if n < passed then passed - n else 0)
    && (n <= refused ==> e.blacklistUntil == 0 && e.Of(k).violations == (if n < passed then 0 else n - passed))
    && (n > refused ==> e.blacklistUntil == now + 60)
  }

  /** The answer to check n of a flood, counted from 0. */
  function FloodVerdict(k: Kind, n: nat): Verdict
  {
    if k.Handshake? then (if n < 10 then Ok else if n < 60 then Exceeded else Blacklisted)
    else (if n < 2000 then Ok else if n < 2500 then Exceeded else Blacklisted)
  }

  lemma FloodStep(e: Entry, k: Kind, now: int, n: nat)
    requires now >= 0 && FloodOk(e, k, now, n)
    ensures FloodOk(CheckEntry(e, k, now).0, k, now, n + 1) && CheckEntry(e, k, now).1 == FloodVerdict(k, n)
  {
  }

  /** The table's entry for the address. */
  ghost predicate HasEntry(t: seq<Entry>, ip: nat, e: Entry)
  {
    var j := Index(t, ip);
    j < |t| && t[j] == e
  }

  lemma TouchSpares(t: seq<Entry>, ip0: nat, now: int, capacity: nat, ip: nat, e: Entry)
    requires HasEntry(t, ip, e) && ip0 != ip
    ensures HasEntry(Touch(t, ip0, now, capacity), ip, e)
  {
    var j := Index(t, ip0);
    if j < |t| {
      IndexUpdate(t, j, t[j].(lastSeen := now), ip);
    } else if |t| < capacity {
      IndexAppend(t, NewEntry(ip0, now), ip);
    }
  }

  /** Calls about other addresses, and cleanups, leave a recent entry as it is. */
  lemma OthersSpare(s: State, c: Call, capacity: nat, ip: nat, e: Entry)
    requires TableOk(s.table, c.now, capacity) && HasEntry(s.table, ip, e) && e.lastSeen == c.now
    requires !c.CleanUp? ==> c.ip != ip
    ensures HasEntry(Apply(s, c, capacity).table, ip, e)
  {
    match c {
      case CheckLimit(ip0, k0, now) =>
        TouchSpares(s.table, ip0, now, capacity, ip, e);
        var u := Touch(s.table, ip0, now, capacity);
        var j := Index(u, ip0);
        if j < |u| { IndexUpdate(u, j, CheckEntry(u[j], k0, now).0, ip); }
      case CleanUp(now) =>
        KeptFacts(s.table, now);
        var r := Kept(s.table, now);
        assert e in r;
        var i :| 0 <= i < |r| && r[i] == e;
        assert Index(r, ip) == i;
      case Ban(ip0, now) =>
        TouchSpares(s.table, ip0, now, capacity, ip, e);
        var u := Touch(s.table, ip0, now, capacity);
        var j := Index(u, ip0);
        if j < |u| { IndexUpdate(u, j, u[j].(blacklistUntil := now + BLACKLIST_DURATION), ip); }
    }
  }

  lemma CheckFound(s: State, k: Kind, now: int, capacity: nat, ip: nat, e: Entry)
    requires HasEntry(Touch(s.table, ip, now, capacity), ip, e)
    ensures HasEntry(Apply(s, CheckLimit(ip, k, now), capacity).table, ip, CheckEntry(e, k, now).0)
    ensures CheckTable(s.table, ip, k, now, capacity).1 == CheckEntry(e, k, now).1
  {
    var u := Touch(s.table, ip, now, capacity);
    IndexUpdate(u, Index(u, ip), CheckEntry(e, k, now).0, ip);
  }

  /** After n checks of the address its entry is as flooded; before the first it has none. */
  ghost predicate InFlood(t: seq<Entry>, capacity: nat, ip: nat, k: Kind, now: int, n: nat)
  {
    if n == 0 then Index(t, ip) == |t| < capacity
    else
      var j := Index(t, ip);
      j < |t| && t[j].lastSeen == now && FloodOk(t[j], k, now, n)
  }

  lemma FloodCheck(s: State, capacity: nat, ip: nat, k: Kind, now: int, n: nat)
    requires now >= 0 && InFlood(s.table, capacity, ip, k, now, n)
    ensures InFlood(Apply(s, CheckLimit(ip, k, now), capacity).table, capacity, ip, k, now, n + 1)
    ensures CheckTable(s.table, ip, k, now, capacity).1 == FloodVerdict(k, n)
  {
    var e := if n == 0 then NewEntry(ip, now) else s.table[Index(s.table, ip)];
    if n == 0 {
      IndexAppend(s.table, e, ip);
    } else {
      IndexUpdate(s.table, Index(s.table, ip), e, ip);
      assert s.table[Index(s.table, ip) := e] == s.table;
    }
    FloodStep(e, k, now, n);
    CheckFound(s, k, now, capacity, ip, e);
  }

  /** Among the calls, the checks of the address answer as the n-th and following of a flood. */
  ghost predicate AnswersAsFlood(s: State, calls: seq<Call>, capacity: nat, ip: nat, k: Kind, n: nat)
    decreases |calls|
  {
    calls == [] ||
    if calls[0] == CheckLimit(ip, k, calls[0].now)
    then CheckTable(s.table, ip, k, calls[0].now, capacity).1 == FloodVerdict(k, n) &&
         AnswersAsFlood(Apply(s, calls[0], capacity), calls[1..], capacity, ip, k, n + 1)
    else AnswersAsFlood(Apply(s, calls[0], capacity), calls[1..], capacity, ip, k, n)
  }

  /** Calls within one second, of which those about the address are checks of one kind. */
  ghost predicate OneBurst(calls: seq<Call>, ip: nat, k: Kind, now: int)
  {
    forall i :: 0 <= i < |calls| ==>
      calls[i].now == now && (!calls[i].CleanUp? && calls[i].ip == ip ==> calls[i] == CheckLimit(ip, k, now))
  }

  lemma FloodSpared(s: State, c: Call, capacity: nat, ip: nat, k: Kind, now: int, n: nat)
    requires TableOk(s.table, now, capacity) && InFlood(s.table, capacity, ip, k, now, n) && n > 0
    requires c.now == now && (!c.CleanUp? ==> c.ip != ip)
    ensures InFlood(Apply(s, c, capacity).table, capacity, ip, k, now, n)
  {
    OthersSpare(s, c, capacity, ip, s.table[Index(s.table, ip)]);
  }

  lemma {:induction false} FloodRun(s: State, calls: seq<Call>, capacity: nat, ip: nat, k: Kind, now: int, n: nat)
    requires now >= 0 && TableOk(s.table, now, capacity) && OneBurst(calls, ip, k, now)
    requires InFlood(s.table, capacity, ip, k, now, n) && (n == 0 && calls != [] ==> calls[0] == CheckLimit(ip, k, now))
    ensures AnswersAsFlood(s, calls, capacity, ip, k, n)
    decreases |calls|
  {
    if calls != [] {
      var c := calls[0];
      var u := Apply(s, c, capacity);
      ApplyOk(s, c, now, capacity);
      if c == CheckLimit(ip, k, now) {
        FloodCheck(s, capacity, ip, k, now, n);
        FloodRun(u, calls[1..], capacity, ip, k, now, n + 1);
      } else {
        FloodSpared(s, c, capacity, ip, k, now, n);
        FloodRun(u, calls[1..], capacity, ip, k, now, n);
      }
    }
  }

  /** A burst within one second from an address new to a table with room, with any calls about
      other addresses and cleanups in between: the first 10 handshakes (2000 packets) pass, the
      next 50 (500) are turned away, and from then on the address is blacklisted. */
  lemma FloodVerdicts(s: State, calls: seq<Call>, capacity: nat, ip: nat, k: Kind, now: int)
    requires now >= 0 && TableOk(s.table, now, capacity) && Index(s.table, ip) == |s.table| < capacity
    requires OneBurst(calls, ip, k, now) && calls != [] && calls[0] == CheckLimit(ip, k, now)
    ensures AnswersAsFlood(s, calls, capacity, ip, k, 0)
  {
    FloodRun(s, calls, capacity, ip, k, now, 0);
  }
}
