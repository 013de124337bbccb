/** Constant-bit-rate pacing: how a session's deadline moves, and the send rate that follows.
    Times are nanoseconds; the source's doubles are exact reals here. */
module Pacing {
  import opened TaskHeap

  const BILLION: int := 1_000_000_000

  /** FRAG plus MAC, session id, sequence number, and the Ethernet, IPv4 and UDP headers. */
  function WireLen(frag: int): int { frag + 16 + 16 + 8 + 14 + 20 + 8 }

  /** Nanoseconds between two sends, at least 10 microseconds. */
  function Interval(mbps: int, frag: int): (r: real)
    requires mbps > 0
    ensures r >= 10000.0
  {
    var r := WireLen(frag) as real * 8.0 / (mbps as real * 1000000.0) * 1000000000.0;
    if r < 10000.0 then 10000.0 else r
  }

  /** For every rate and fragment size a handshake lets through, the 10 microsecond floor
      never applies. */
  lemma FloorNeverBinds(mbps: int, frag: int)
    requires 1 <= mbps <= 15 && 64 <= frag <= 1200
    ensures Interval(mbps, frag) * mbps as real == 8000.0 * (frag as real + 82.0)
    ensures Interval(mbps, frag) >= 77866.0
  {
    var w, m := WireLen(frag) as real, mbps as real;
    var r := w * 8.0 / (m * 1000000.0) * 1000000000.0;
    assert r == w * 8000.0 / m;
    assert r * m == 8000.0 * w;
    assert w >= 146.0 && m <= 15.0;
    assert r * 15.0 >= r * m;
  }

  /** For any rate and size the interval is that length on the wire or 10 microseconds, whichever
      is longer. */
  lemma IntervalIs(mbps: int, frag: int)
    requires mbps > 0
    ensures var i := Interval(mbps, frag);
            i >= 10000.0 && i * mbps as real >= 8000.0 * (frag as real + 82.0) &&
            (i == 10000.0 || i * mbps as real == 8000.0 * (frag as real + 82.0))
  {
    var w, m := WireLen(frag) as real, mbps as real;
    var r := w * 8.0 / (m * 1000000.0) * 1000000000.0;
    assert r == w * 8000.0 / m;
    assert r * m == 8000.0 * w;
    if r < 10000.0 { assert (10000.0 - r) * m > 0.0; }
  }

  /** Whole intervals missed, in nanoseconds. */
  function SkipNs(behind: int, interval: real): int
    requires interval >= 1.0
  {
    var skipped := (behind as real / interval).Floor;
    if skipped > 0 then (skipped as real * interval).Floor else 0
  }

  /** The deadline after a send: one interval on, then past all whole intervals missed. */
  function NextDeadline(d: int, now: int, interval: real): int
    requires interval >= 1.0
  {
    var next := d + interval.Floor;
    if now - next > 0 then next + SkipNs(now - next, interval) else next
  }

  lemma Quotient(b: real, interval: real, q: int)
    requires interval >= 1.0 && b >= 0.0 && q == (b / interval).Floor
    ensures q >= 0 && q as real * interval <= b < q as real * interval + interval
  {
    Bracket(b / interval, q as real, interval, b);
  }

  lemma Bracket(x: real, y: real, m: real, b: real)
    requires m >= 1.0 && b == x * m && y <= x < y + 1.0
    ensures y * m <= b < y * m + m
  {
    var e := x - y;
    Fraction(e, m);
    var ym, em := y * m, e * m;
    assert x * m == (y + e) * m;
    assert b == ym + em;
  }

  lemma Fraction(e: real, m: real)
    requires 0.0 <= e < 1.0 && m >= 1.0
    ensures 0.0 <= e * m < m
  {
    assert (1.0 - e) * m > 0.0;
  }

  lemma Multiple(q: int, m: real)
    requires q >= 0 && m >= 1.0
    ensures q == 0 ==> q as real * m == 0.0
    ensures q > 0 ==> q as real * m >= m && (q as real * m).Floor >= 1
  {
    if q > 0 {
      var e := q as real - 1.0;
      assert e * m >= 0.0;
      assert q as real * m == (e + 1.0) * m;
      assert (e + 1.0) * m == e * m + m;
    }
  }

  lemma SkipBounds(behind: int, interval: real, skip: int)
    requires interval >= 1.0 && behind > 0 && skip == SkipNs(behind, interval)
    ensures 0 <= skip <= behind && (behind - skip) as real < interval + 1.0
    ensures skip == 0 <==> behind as real < interval
  {
    var skipped := (behind as real / interval).Floor;
    Quotient(behind as real, interval, skipped);
    Multiple(skipped, interval);
  }

  /** Each reschedule advances the deadline by at least one truncated interval, leaves it less
      than one interval plus a nanosecond behind the clock, and never jumps past the clock. */
  lemma RescheduleBounds(d: int, now: int, interval: real)
    requires interval >= 1.0
    ensures var next := NextDeadline(d, now, interval);
            next >= d + interval.Floor && (now - next) as real < interval + 1.0 &&
            (next == d + interval.Floor || next <= now)
  {
    var behind := now - (d + interval.Floor);
    if behind > 0 {
      var skip := SkipNs(behind, interval);
      SkipBounds(behind, interval, skip);
    }
  }

  /** The cadence is kept exactly as long as the worker is less than one interval late. */
  lemma CadenceKeptIff(d: int, now: int, interval: real)
    requires interval >= 1.0
    ensures NextDeadline(d, now, interval) == d + interval.Floor <==> (now - (d + interval.Floor)) as real < interval
  {
    var behind := now - (d + interval.Floor);
    if behind > 0 {
      var skip := SkipNs(behind, interval);
      SkipBounds(behind, interval, skip);
    }
  }

  /** Where a reschedule lands: one truncated interval on and, when that is past, q whole
      intervals further, on the last cadence point the clock has passed. */
  ghost predicate OnCadence(d: int, now: int, interval: real, next: int, q: int)
  {
    var behind := now - (d + interval.Floor);
    && q >= 0 && next == d + interval.Floor + (q as real * interval).Floor
    && if behind > 0 then q as real * interval <= behind as real < (q + 1) as real * interval else q == 0
  }

  lemma CadencePoint(d: int, now: int, interval: real) returns (q: int)
    requires interval >= 1.0
    ensures OnCadence(d, now, interval, NextDeadline(d, now, interval), q)
  {
    var behind := now - (d + interval.Floor);
    q := 0;
    if behind > 0 {
      q := (behind as real / interval).Floor;
      Quotient(behind as real, interval, q);
      Multiple(q, interval);
      assert (q + 1) as real * interval == q as real * interval + interval;
    }
    assert q == 0 ==> q as real * interval == 0.0;
  }

  /** One session's task over time: deadline, start of the send, and the clock reading of
      the reschedule, for each send.  Delays are arbitrary; a send is never early. */
  datatype Send = Send(deadline: int, start: int, after: int)

  ghost predicate Paced(sends: seq<Send>, interval: real)
    requires interval >= 1.0
  {
    && (forall j :: 0 <= j < |sends| ==> sends[j].deadline <= sends[j].start <= sends[j].after)
    && (forall j :: 0 <= j < |sends| - 1 ==>
          sends[j].after <= sends[j + 1].start && sends[j + 1].deadline == NextDeadline(sends[j].deadline, sends[j].after, interval))
  }

  lemma {:induction false} DeadlinesAdvance(sends: seq<Send>, interval: real, a: nat, b: nat)
    requires interval >= 1.0 && Paced(sends, interval) && a <= b < |sends|
    ensures sends[b].deadline >= sends[a].deadline + (b - a) * interval.Floor
  {
    if a < b {
      DeadlinesAdvance(sends, interval, a, b - 1);
      RescheduleBounds(sends[b - 1].deadline, sends[b - 1].after, interval);
      assert sends[b - 1 + 1].deadline == NextDeadline(sends[b - 1].deadline, sends[b - 1].after, interval);
      assert (b - 1 - a) * interval.Floor + interval.Floor == (b - a) * interval.Floor;
    }
  }

  /** Rate bound over whole runs: n sends in a row, starting within a span of T nanoseconds,
      satisfy (n - 3) * I < T + 2 whatever the delays, I being the truncated interval. */
  lemma RateBound(sends: seq<Send>, interval: real, a: nat, b: nat)
    requires interval >= 1.0 && Paced(sends, interval) && a <= b < |sends|
    ensures var n, span := b - a + 1, sends[b].start - sends[a].start;
            (n - 3) * interval.Floor < span + 2
  {
    var step := interval.Floor;
    if a < b {
      var d, r := sends[a].deadline, sends[a].after;
      RescheduleBounds(d, r, interval);
      assert sends[a + 1].deadline == NextDeadline(d, r, interval);
      assert sends[a + 1].deadline > sends[a].start - step - 2;
      DeadlinesAdvance(sends, interval, a + 1, b);
      assert (b - (a + 1)) * step == (b - a - 2) * step + step;
    }
  }

  // ---------- struct timespec ----------

  function Ns(t: Time): int { t.sec * BILLION + t.nsec }

  predicate Normal(t: Time) { 0 <= t.nsec < BILLION }

  /** On normalised times the heap's lexicographic order is the order of nanoseconds. */
  lemma OrderIsNanoseconds(a: Time, b: Time)
    requires 0 <= a.nsec < 1_000_000_000 && 0 <= b.nsec < 1_000_000_000
    ensures Normal(a) && Normal(b) && (Le(a, b) <==> Ns(a) <= Ns(b)) && Ns(a) == a.sec * 1_000_000_000 + a.nsec
  {
  }

  /** The carry loop both additions end with. */
  method Carry(t: Time) returns (r: Time)
    requires t.nsec >= 0
    ensures Normal(r) && Ns(r) == Ns(t)
  {
    r := t;
    while r.nsec >= BILLION
      invariant r.nsec >= 0 && Ns(r) == Ns(t)
      decreases r.nsec
    {
      r := Time(r.sec + 1, r.nsec - BILLION);
    }
  }

  /** The arithmetic of a reschedule, with its carry loops. */
  method Rescheduled(nextRun: Time, now: Time, mbps: int, frag: int) returns (r: Time)
    requires Normal(nextRun) && mbps > 0
    ensures Normal(r) && Ns(r) == NextDeadline(Ns(nextRun), Ns(now), Interval(mbps, frag))
  {
    var interval := Interval(mbps, frag);
    r := Carry(Time(nextRun.sec, nextRun.nsec + interval.Floor));
    var behind := (now.sec - r.sec) * BILLION + (now.nsec - r.nsec);
    if behind > 0 {
      var skipped := (behind as real / interval).Floor;
      if skipped > 0 {
        var skip := (skipped as real * interval).Floor;
        Multiple(skipped, interval);
        assert skip == SkipNs(behind, interval);
        r := Carry(Time(r.sec + skip / BILLION, r.nsec + skip % BILLION));
      }
    }
  }

  /** `add_mbps_interval_to_timespec` followed by the drift skip of the scheduler worker: one
      truncated interval on, and when that is past, whole intervals further to the last cadence
      point the clock has passed. */
  method Reschedule(nextRun: Time, now: Time, mbps: int, frag: int) returns (r: Time, ghost q: int)
    requires Normal(nextRun) && mbps > 0
    ensures Normal(r) && Ns(r) == NextDeadline(Ns(nextRun), Ns(now), Interval(mbps, frag))
    ensures OnCadence(Ns(nextRun), Ns(now), Interval(mbps, frag), Ns(r), q)
  {
    q := CadencePoint(Ns(nextRun), Ns(now), Interval(mbps, frag));
    r := Rescheduled(nextRun, now, mbps, frag);
  }
}
