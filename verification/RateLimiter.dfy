/** Per-address token buckets with lazy refill, violation counts, a blacklist, and a table
    that is compacted in place.  Rates and elapsed seconds are integers, so token counts are. */
module RateLimiter {

  const BLACKLIST_DURATION: int := 60
  const IDLE_LIMIT: int := 300
  const CLEANUP_INTERVAL: int := 10

  /** The two buckets of an address: handshake attempts and data packets. */
  datatype Kind = Handshake | Packet

  function Burst(k: Kind): nat { if k.Handshake? then 10 else 2000 }
  function Rate(k: Kind): nat { if k.Handshake? then 5 else 1000 }
  function Tolerance(k: Kind): nat { if k.Handshake? then 50 else 500 }

  datatype Verdict = Ok | Exceeded | Blacklisted

  datatype Bucket = Bucket(tokens: nat, lastRefill: int, violations: nat)

  datatype Entry = Entry(ip: nat, handshake: Bucket, packet: Bucket, blacklistUntil: int, lastSeen: int)
  {
    function Of(k: Kind): Bucket { if k.Handshake? then handshake else packet }

    function WithBucket(k: Kind, b: Bucket): Entry
    {
      if k.Handshake? then this.(handshake := b) else this.(packet := b)
    }
  }

  function Capped(n: int, most: int): int { if n < most then n else most }

  /** `refill_tokens` */
  function Refill(b: Bucket, k: Kind, now: int): Bucket
  {
    if now - b.lastRefill > 0 then
      b.(tokens := Capped(b.tokens + (now - b.lastRefill) * Rate(k), Burst(k)), lastRefill := now)
    else b
  }

  /** What a check does to the entry it found; the violation counter is 32 bits wide. */
  function CheckEntry(e: Entry, k: Kind, now: int): (Entry, Verdict)
  {
    if e.blacklistUntil > now then (e, Blacklisted)
    else
      var b := Refill(e.Of(k), k, now);
      if b.tokens >= 1 then (e.WithBucket(k, b.(tokens := b.tokens - 1)), Ok)
      else
        var c := b.(violations := (b.violations + 1) % 0x1_0000_0000);
        if c.violations > Tolerance(k) then
          (e.WithBucket(k, c).(blacklistUntil := now + BLACKLIST_DURATION), Blacklisted)
        else (e.WithBucket(k, c), Exceeded)
  }

  function NewEntry(ip: nat, now: int): Entry
  {
    Entry(ip, Bucket(Burst(Handshake), now, 0), Bucket(Burst(Packet), now, 0), 0, now)
  }

  /** First entry from i on for the address, or the length of the table. */
  function IndexFrom(t: seq<Entry>, ip: nat, i: nat): (j: nat)
    requires i <= |t|
    ensures i <= j <= |t| && (j < |t| ==> t[j].ip == ip)
    ensures forall k :: i <= k < j ==> t[k].ip != ip
    decreases |t| - i
  {
    if i == |t| || t[i].ip == ip then i else IndexFrom(t, ip, i + 1)
  }

  function Index(t: seq<Entry>, ip: nat): (j: nat)
    ensures j <= |t|
  {
    IndexFrom(t, ip, 0)
  }

  /** The table after `find_or_create_ip_entry`: entry found and stamped, or appended full,
      or the table was full and nothing changed. */
  function Touch(t: seq<Entry>, ip: nat, now: int, capacity: nat): seq<Entry>
  {
    var j := Index(t, ip);
    if j < |t| then t[j := t[j].(lastSeen := now)]
    else if |t| < capacity then t + [NewEntry(ip, now)]
    else t
  }

  function CheckTable(t: seq<Entry>, ip: nat, k: Kind, now: int, capacity: nat): (seq<Entry>, Verdict)
  {
    var u := Touch(t, ip, now, capacity);
    var j := Index(u, ip);
    if j == |u| then (u, Exceeded)
    else (u[j := CheckEntry(u[j], k, now).0], CheckEntry(u[j], k, now).1)
  }

  function BlacklistTable(t: seq<Entry>, ip: nat, now: int, capacity: nat): seq<Entry>
  {
    var u := Touch(t, ip, now, capacity);
    var j := Index(u, ip);
    if j == |u| then u else u[j := u[j].(blacklistUntil := now + BLACKLIST_DURATION)]
  }

  /** Entries a cleanup keeps: recent, or still blacklisted. */
  predicate Keep(e: Entry, now: int) { now - e.lastSeen < IDLE_LIMIT || e.blacklistUntil > now }

  /** Order-preserving filter. */
  function Kept(t: seq<Entry>, now: int): (r: seq<Entry>)
    ensures |r| <= |t|
  {
    if t == [] then []
    else
      var n := |t| - 1;
      if Keep(t[n], now) then Kept(t[..n], now) + [t[n]] else Kept(t[..n], now)
  }

  class Limiter {
    const entries: array<Entry>
    var count: nat
    var lastCleanup: int

    ghost predicate Valid()
      reads this, entries
    {
      count <= entries.Length
    }

    ghost function Table(): seq<Entry>
      reads this, entries
      requires Valid()
    {
      entries[..count]
    }

    constructor (capacity: nat, now: int)
      ensures Valid() && fresh(entries) && entries.Length == capacity && Table() == [] && lastCleanup == now
    {
      entries := new Entry[capacity];
      count, lastCleanup := 0, now;
    }

    /** `find_or_create_ip_entry`: the index, or -1 when the table is full. */
    method FindOrCreate(ip: nat, now: int) returns (j: int)
      requires Valid()
      modifies this`count, entries
      ensures Valid() && Table() == Touch(old(Table()), ip, now, entries.Length)
      ensures var i := Index(Table(), ip); j == if i < count then i else -1
    {
      j := 0;
      while j < count
        invariant 0 <= j <= count && count == old(count) && entries[..] == old(entries[..])
        invariant forall k :: 0 <= k < j ==> Table()[k].ip != ip
      {
        if entries[j].ip == ip {
          entries[j] := entries[j].(lastSeen := now);
          assert Table() == old(Table())[j := entries[j]];
          return;
        }
        j := j + 1;
      }
      assert Index(Table(), ip) == count && Table() == old(Table());
      if count < entries.Length {
        entries[count] := NewEntry(ip, now);
        count := count + 1;
        assert Table() == old(Table()) + [NewEntry(ip, now)];
        return count - 1;
      }
      return -1;
    }

    /** `check_handshake_rate_limit` and `check_packet_rate_limit` */
    method Check(ip: nat, k: Kind, now: int) returns (v: Verdict)
      requires Valid()
      modifies this`count, entries
      ensures Valid()
      ensures Table() == CheckTable(old(Table()), ip, k, now, entries.Length).0
      ensures v == CheckTable(old(Table()), ip, k, now, entries.Length).1
    {
      var j := FindOrCreate(ip, now);
      if j < 0 { return Exceeded; }
      ghost var u := Table();
      var e := entries[j];
      if e.blacklistUntil > now {
        assert u == u[j := e];
        return Blacklisted;
      }
      var b := Refill(e.Of(k), k, now);
      v := Ok;
      if b.tokens >= 1 {
        b := b.(tokens := b.tokens - 1);
      } else {
        b := b.(violations := (b.violations + 1) % 0x1_0000_0000);
        if b.violations > Tolerance(k) {
          e := e.(blacklistUntil := now + BLACKLIST_DURATION);
          v := Blacklisted;
        } else {
          v := Exceeded;
        }
      }
      entries[j] := e.WithBucket(k, b);
      assert Table() == u[j := entries[j]];
    }

    method BlacklistIp(ip: nat, now: int)
      requires Valid()
      modifies this`count, entries
      ensures Valid() && Table() == BlacklistTable(old(Table()), ip, now, entries.Length)
      ensures Index(Table(), ip) < count ==> Table()[Index(Table(), ip)].blacklistUntil == now + 60
    {
      var j := FindOrCreate(ip, now);
      if j >= 0 {
        ghost var u := Table();
        entries[j] := entries[j].(blacklistUntil := now + BLACKLIST_DURATION);
        assert Table() == u[j := entries[j]];
      }
    }

    /** `rate_limiter_cleanup`: two indices over one array, kept entries moved left. */
    method Cleanup(now: int)
      requires Valid()
      modifies this, entries
      ensures Valid()
      ensures Table() == if now - old(lastCleanup) < 10 then old(Table()) else Kept(old(Table()), now)
      ensures lastCleanup == if now - old(lastCleanup) < 10 then old(lastCleanup) else now
    {
      if now - lastCleanup < CLEANUP_INTERVAL { return; }
      ghost var t := Table();
      var i, j := 0, 0;
      while i < count
        invariant 0 <= j <= i <= count && count == old(count)
        invariant entries[..j] == Kept(t[..i], now)
        invariant forall k :: i <= k < count ==> entries[k] == t[k]
      {
        ghost var e := t[i];
        assert t[..i + 1][..i] == t[..i] && entries[i] == e;
        if Keep(entries[i], now) {
          if i != j { entries[j] := entries[i]; }
          j := j + 1;
        }
        i := i + 1;
      }
      assert t[..i] == t;
      count := j;
      lastCleanup := now;
    }
  }
}
