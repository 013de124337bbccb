/** The client's rehandshake machine: when it may try, how failures back off, and when it
    gives up.  A key exchange is an input: when it started and whether it succeeded. */
module Rehandshake {

  const MAX_ATTEMPTS: nat := 5
  const BACKOFF_CAP: nat := 60

  datatype Phase = Ready | InProgress | Backoff | Failed

  datatype Machine = Machine(phase: Phase, attempts: nat, lastAttempt: int, backoff: nat, epoch: nat)

  /** How a client starts. */
  const INITIAL: Machine := Machine(Ready, 0, 0, 1, 0)

  function Pow2(k: nat): nat { if k == 0 then 1 else 2 * Pow2(k - 1) }

  /** `should_attempt_rehandshake`: 1 try now, 0 wait, -1 give up; may move the phase. */
  function Decide(m: Machine, now: int): (Machine, int)
  {
    if m.attempts >= MAX_ATTEMPTS then (m.(phase := Failed), -1)
    else match m.phase
      case Ready => (m, 1)
      case InProgress => (m, 0)
      case Backoff => if now - m.lastAttempt >= m.backoff then (m.(phase := Ready), 1) else (m, 0)
      case Failed => (m, -1)
  }

  /** `rehandshake_client_with_state`, seen from before to after. */
  function Attempt(m: Machine, start: int, ok: bool): Machine
  {
    if ok then Machine(Ready, 0, start, 1, m.epoch + 1)
    else
      var wait := Pow2(m.attempts);
      Machine(Backoff, m.attempts + 1, start, if wait > BACKOFF_CAP then BACKOFF_CAP else wait, m.epoch)
  }

  /** The machine in the source's form: fields updated step by step. */
  class Client {
    var phase: Phase
    var attempts: nat
    var lastAttempt: int
    var backoff: nat
    var epoch: nat

    constructor ()
      ensures State() == INITIAL && phase.Ready? && attempts == 0 && lastAttempt == 0 && backoff == 1 && epoch == 0
    {
      phase, attempts, lastAttempt, backoff, epoch := Ready, 0, 0, 1, 0;
    }

    ghost function State(): Machine
      reads this
    {
      Machine(phase, attempts, lastAttempt, backoff, epoch)
    }

    /** -1 exactly when the client has given up, and then it stays given up; 1 only when a
        try may be made now, which is then the phase, and any backoff has run out; 0 exactly
        while a try runs or a backoff has not run out.  Only the phase ever changes. */
    method ShouldAttempt(now: int) returns (r: int)
      modifies this
      ensures State() == Decide(old(State()), now).0 && r == Decide(old(State()), now).1
      ensures r == -1 <==> old(attempts) >= MAX_ATTEMPTS || old(phase).Failed?
      ensures r == 1 ==> phase.Ready? && attempts < MAX_ATTEMPTS && (old(phase).Backoff? ==> now - lastAttempt >= backoff)
      ensures r == 0 ==> phase == old(phase) && (phase.InProgress? || (phase.Backoff? && now - lastAttempt < backoff))
      ensures (r == -1 ==> phase.Failed?) && -1 <= r <= 1
      ensures unchanged(`attempts) && unchanged(`lastAttempt) && unchanged(`backoff) && unchanged(`epoch)
    {
      if attempts >= MAX_ATTEMPTS {
        phase := Failed;
        return -1;
      }
      match phase {
        case Ready => r := 1;
        case InProgress => r := 0;
        case Backoff =>
          if now - lastAttempt >= backoff {
            phase := Ready;
            r := 1;
          } else {
            r := 0;
          }
        case Failed => r := -1;
      }
    }

    /** One attempt; `epoch` counts the key sets installed, so a failure keeps the old keys. */
    method TryRehandshake(start: int, ok: bool) returns (rc: int)
      modifies this
      ensures State() == Attempt(old(State()), start, ok) && rc == if ok then 0 else -1
      ensures ok ==> phase.Ready? && attempts == 0 && backoff == 1 && epoch == old(epoch) + 1
      ensures !ok ==> phase.Backoff? && attempts == old(attempts) + 1 && epoch == old(epoch)
      ensures !ok ==> backoff == if Pow2(old(attempts)) > 60 then 60 else Pow2(old(attempts))
      ensures lastAttempt == start
    {
      phase := InProgress;
      lastAttempt := start;
      if !ok {
        attempts := attempts + 1;
        backoff := Pow2(attempts - 1);
        if backoff > BACKOFF_CAP { backoff := BACKOFF_CAP; }
        phase := Backoff;
        return -1;
      }
      epoch := epoch + 1;
      attempts := 0;
      backoff := 1;
      phase := Ready;
      return 0;
    }
  }

  // ---------- Runs of the event loop ----------

  /** One pass of the event loop over the rehandshake trigger: whether a limit was reached,
      when the machine was asked, whether the sender thread exists, and the exchange's start
      and outcome if one is made. */
  datatype Turn = Turn(due: bool, asked: int, haveSender: bool, start: int, ok: bool)

  /** An exchange that was made. */
  datatype Try = Try(start: int, ok: bool)

  datatype Run = Run(machine: Machine, tries: seq<Try>, clock: int, disconnect: bool)

  function Pass(r: Run, t: Turn): Run
  {
    if !t.due then r.(clock := t.asked)
    else
      var d := Decide(r.machine, t.asked);
      if d.1 == -1 then r.(machine := d.0, clock := t.asked, disconnect := true)
      else if d.1 == 1 && t.haveSender then
        Run(Attempt(d.0, t.start, t.ok), r.tries + [Try(t.start, t.ok)], t.start, r.disconnect)
      else r.(machine := d.0, clock := t.asked)
  }

  function RunOf(turns: seq<Turn>): Run
  {
    if turns == [] then Run(INITIAL, [], 0, false)
    else Pass(RunOf(turns[..|turns| - 1]), turns[|turns| - 1])
  }

  /** The clock never goes back. */
  ghost predicate Timed(turns: seq<Turn>)
  {
    && (forall i :: 0 <= i < |turns| ==> 0 <= turns[i].asked <= turns[i].start)
    && (forall i, j :: 0 <= i < j < |turns| ==> turns[i].start <= turns[j].asked)
  }

  /** Tries among the first j that succeeded. */
  function Successes(tries: seq<Try>, j: nat): nat
    requires j <= |tries|
  {
    if j == 0 then 0 else Successes(tries, j - 1) + if tries[j - 1].ok then 1 else 0
  }

  /** Failures in a row up to and including try j. */
  function Streak(tries: seq<Try>, j: nat): nat
    requires j <= |tries|
  {
    if j == 0 || tries[j - 1].ok then 0 else Streak(tries, j - 1) + 1
  }

  /** The law of the tries made: at most five failures in a row, the try after the k-th of
      them at least 2^(k-1) seconds after it started, and none after the fifth. */
  ghost predicate Lawful(tries: seq<Try>)
  {
    && (forall j :: 0 <= j <= |tries| ==> Streak(tries, j) <= MAX_ATTEMPTS)
    && (forall j :: 0 < j < |tries| ==> Spaced(tries, j))
  }

  /** Try j comes after enough of a pause, if it follows a failure at all. */
  ghost predicate Spaced(tries: seq<Try>, j: nat)
    requires 0 < j < |tries|
  {
    var k := Streak(tries, j);
    k > 0 ==> k < MAX_ATTEMPTS && tries[j].start - tries[j - 1].start >= Pow2(k - 1)
  }

  ghost predicate Coherent(r: Run)
  {
    var m, n := r.machine, |r.tries|;
    && Lawful(r.tries)
    && m.attempts == Streak(r.tries, n) && m.epoch == Successes(r.tries, n)
    && !m.phase.InProgress?
    && (m.phase.Failed? ==> m.attempts == MAX_ATTEMPTS)
    && (m.phase.Backoff? ==> m.attempts > 0)
    && (m.attempts > 0 ==> n > 0 && m.lastAttempt == r.tries[n - 1].start <= r.clock && m.backoff == Pow2(m.attempts - 1))
    && (m.phase.Ready? && m.attempts > 0 ==> r.clock - m.lastAttempt >= m.backoff)
    && (r.disconnect ==> m.phase.Failed?)
  }

  lemma {:induction false} StreakPrefix(tries: seq<Try>, more: seq<Try>, j: nat)
    requires j <= |tries|
    ensures Streak(tries + more, j) == Streak(tries, j) && Successes(tries + more, j) == Successes(tries, j)
  {
    if j > 0 { StreakPrefix(tries, more, j - 1); }
  }

  lemma SmallPowers()
    ensures Pow2(0) == 1 && Pow2(1) == 2 && Pow2(2) == 4 && Pow2(3) == 8 && Pow2(4) == 16
  {
  }

  lemma LawfulAppend(tries: seq<Try>, t: Try)
    requires Lawful(tries)
    requires var k := Streak(tries, |tries|);
             k > 0 ==> k < MAX_ATTEMPTS && t.start - tries[|tries| - 1].start >= Pow2(k - 1)
    ensures Lawful(tries + [t])
    ensures Streak(tries + [t], |tries| + 1) == if t.ok then 0 else Streak(tries, |tries|) + 1
    ensures Successes(tries + [t], |tries| + 1) == Successes(tries, |tries|) + if t.ok then 1 else 0
  {
    var u := tries + [t];
    StreakPrefix(tries, [t], |tries|);
    assert Streak(u, |u|) == if t.ok then 0 else Streak(u, |tries|) + 1;
    forall j | 0 <= j <= |u|
      ensures Streak(u, j) <= MAX_ATTEMPTS
    {
      if j <= |tries| { StreakPrefix(tries, [t], j); }
    }
    forall j | 0 < j < |u|
      ensures Spaced(u, j)
    {
      StreakPrefix(tries, [t], j);
      if j < |tries| { assert Spaced(tries, j); }
    }
  }

  lemma DecideCoherent(r: Run, now: int)
    requires Coherent(r) && r.clock <= now
    ensures var d := Decide(r.machine, now);
            Coherent(r.(machine := d.0, clock := now)) &&
            (d.1 == -1 ==> Coherent(r.(machine := d.0, clock := now, disconnect := true))) &&
            (d.1 == 1 ==> d.0.attempts < MAX_ATTEMPTS && d.0.phase.Ready?)
  {
  }

  lemma TickCoherent(r: Run, now: int)
    requires Coherent(r) && r.clock <= now
    ensures Coherent(r.(clock := now))
  {
  }

  lemma AttemptCoherent(r: Run, start: int, ok: bool)
    requires Coherent(r) && r.clock <= start && r.machine.attempts < MAX_ATTEMPTS && r.machine.phase.Ready?
    ensures Coherent(Run(Attempt(r.machine, start, ok), r.tries + [Try(start, ok)], start, r.disconnect))
  {
    LawfulAppend(r.tries, Try(start, ok));
    SmallPowers();
    assert Pow2(r.machine.attempts) <= 16;
  }

  /** Every pass keeps the machine and the tries in step. */
  lemma PassCoherent(r: Run, t: Turn)
    requires Coherent(r) && r.clock <= t.asked <= t.start
    ensures Coherent(Pass(r, t)) && Pass(r, t).clock <= t.start
  {
    if !t.due {
      TickCoherent(r, t.asked);
    } else {
      DecideCoherent(r, t.asked);
      var d := Decide(r.machine, t.asked);
      if d.1 == 1 && t.haveSender {
        AttemptCoherent(r.(machine := d.0, clock := t.asked), t.start, t.ok);
      }
    }
  }

  lemma {:induction false} RunCoherent(turns: seq<Turn>)
    requires Timed(turns)
    ensures Coherent(RunOf(turns))
    ensures turns != [] ==> RunOf(turns).clock <= turns[|turns| - 1].start
    ensures turns == [] ==> RunOf(turns).clock == 0
  {
    if turns != [] {
      var n := |turns| - 1;
      RunCoherent(turns[..n]);
      PassCoherent(RunOf(turns[..n]), turns[n]);
    }
  }

  /** Over every run: attempts stay in 0..5 and mirror the failures in a row, no pass leaves an
      exchange in progress, the 60 second cap never binds, the tries are lawful, and the keys
      have been replaced exactly as often as a try succeeded. */
  lemma RehandshakeLaw(turns: seq<Turn>)
    requires Timed(turns)
    ensures var r := RunOf(turns);
            r.machine.attempts == Streak(r.tries, |r.tries|) <= MAX_ATTEMPTS && !r.machine.phase.InProgress? &&
            (r.machine.attempts > 0 ==> r.machine.backoff == Pow2(r.machine.attempts - 1) <= 16) && Lawful(r.tries) &&
            r.machine.epoch == Successes(r.tries, |r.tries|)
  {
    RunCoherent(turns);
    SmallPowers();
  }

  /** Five failures in a row span at least 15 seconds. */
  lemma FiveFailuresSpan(turns: seq<Turn>, j: nat)
    requires Timed(turns) && 5 <= j <= |RunOf(turns).tries| && Streak(RunOf(turns).tries, j) == 5
    ensures RunOf(turns).tries[j - 1].start - RunOf(turns).tries[j - 5].start >= 15
  {
    RunCoherent(turns);
    SmallPowers();
    var tries := RunOf(turns).tries;
    assert Streak(tries, j - 1) == 4 && Streak(tries, j - 2) == 3;
    assert Streak(tries, j - 3) == 2 && Streak(tries, j - 4) == 1;
    assert Spaced(tries, j - 1) && Spaced(tries, j - 2) && Spaced(tries, j - 3) && Spaced(tries, j - 4);
  }

  /** After five failures no later pass makes another try, and giving up is for good. */
  lemma {:induction false} GivesUpForGood(turns: seq<Turn>, more: seq<Turn>)
    requires Timed(turns + more) && RunOf(turns).machine.attempts == MAX_ATTEMPTS
    ensures RunOf(turns + more).tries == RunOf(turns).tries && RunOf(turns + more).machine.attempts == MAX_ATTEMPTS
    ensures RunOf(turns).machine.phase.Failed? ==> RunOf(turns + more).machine.phase.Failed?
  {
    if more == [] {
      assert turns + more == turns;
    } else {
      var all, n := turns + more, |turns + more| - 1;
      assert all[..n] == turns + more[..|more| - 1];
      GivesUpForGood(turns, more[..|more| - 1]);
    }
  }

  /** What a pass does: nothing unless a limit is reached; then it gives up exactly after five
      failures in a row, and otherwise tries, if there is a sender, exactly when the backoff of
      the last failure has run out. */
  ghost predicate Acts(r: Run, t: Turn, s: Run)
  {
    var k, n := Streak(r.tries, |r.tries|), |r.tries|;
    if !t.due then s.machine == r.machine && s.tries == r.tries && s.disconnect == r.disconnect
    else if k >= 5 then s.disconnect && s.machine.phase.Failed? && s.tries == r.tries
    else
      var free := n == 0 || k == 0 || t.asked - r.tries[n - 1].start >= Pow2(k - 1);
      s.disconnect == r.disconnect && (free && !t.haveSender ==> s.machine.phase.Ready?) && (!free ==> s.machine == r.machine) &&
      s.tries == if t.haveSender && free then r.tries + [Try(t.start, t.ok)] else r.tries
  }

  lemma PassActs(r: Run, t: Turn)
    requires Coherent(r) && r.clock <= t.asked
    ensures Acts(r, t, Pass(r, t))
  {
  }

  /** Every pass of every run acts so. */
  lemma {:induction false} RunActs(turns: seq<Turn>)
    requires Timed(turns) && turns != []
    ensures Acts(RunOf(turns[..|turns| - 1]), turns[|turns| - 1], RunOf(turns))
  {
    var n := |turns| - 1;
    RunCoherent(turns[..n]);
    PassActs(RunOf(turns[..n]), turns[n]);
  }
}
