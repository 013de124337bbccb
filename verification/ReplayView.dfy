/** What a replay window means: the highest number accepted, and for each distance below it
    whether that number was accepted.  The width of the window is a parameter, so every
    statement holds for every `BITMAP_WORDS`. */
module ReplayView {
  import opened Words

  type Bitmap = b: seq<bool> | |b| > 0 witness [false]

  datatype View = View(recvMax: nat, seen: Bitmap)

  ghost predicate WellFormed(v: View)
  {
    v.recvMax < TWO64 && |v.seen| < TWO64
  }

  /** `check_replay`: reject.  The sum wraps at 64 bits, as in the source. */
  predicate Rejects(v: View, s: nat)
  {
    s == 0 ||
    (s <= v.recvMax &&
     ((s + |v.seen|) % TWO64 <= v.recvMax ||
      (v.recvMax - s < |v.seen| && v.seen[v.recvMax - s])))
  }

  /** One wide left shift: position d takes what was at d - n, the n newest become clear. */
  function Up(seen: Bitmap, n: nat): (r: Bitmap)
    ensures |r| == |seen|
  {
    seq(|seen|, d requires 0 <= d < |seen| => d >= n && seen[d - n])
  }

  /** The window after a number that passed the check. */
  function Advance(v: View, s: nat): (w: View)
    ensures |w.seen| == |v.seen|
  {
    if s > v.recvMax then
      View(s, Up(v.seen, s - v.recvMax)[0 := true])
    else if v.recvMax - s < |v.seen| then
      v.(seen := v.seen[v.recvMax - s := true])
    else v
  }

  /** The window stands for the set of all numbers ever accepted. */
  ghost predicate Represents(v: View, accepted: set<nat>)
  {
    && WellFormed(v)
    && (forall a :: a in accepted ==> 0 < a <= v.recvMax)
    && (v.recvMax > 0 ==> v.recvMax in accepted)
    && (forall d :: 0 <= d < |v.seen| ==> (v.seen[d] <==> d <= v.recvMax && v.recvMax - d in accepted))
  }

  lemma Wrapped(s: nat, w: nat)
    requires s < TWO64 && w < TWO64
    ensures (s + w) % TWO64 == if s + w < TWO64 then s + w else s + w - TWO64
  {
  }

  /** A number inside the window: the check that passes never lets the index run off the bitmap,
      also when `seq + WINDOW_SIZE` wraps. */
  lemma PassedInWindow(v: View, s: nat)
    requires WellFormed(v) && s < TWO64 && !Rejects(v, s)
    ensures s > v.recvMax || (v.recvMax - s < |v.seen| && !v.seen[v.recvMax - s])
  {
    Wrapped(s, |v.seen|);
  }

  /** Refinement step: a number that passes the check was never accepted before, and the
      updated window stands for the enlarged set. */
  lemma AdvanceRepresents(v: View, accepted: set<nat>, s: nat)
    requires Represents(v, accepted) && s < TWO64 && !Rejects(v, s)
    ensures s > 0 && s !in accepted
    ensures Represents(Advance(v, s), accepted + {s})
  {
    PassedInWindow(v, s);
    var w := Advance(v, s);
    if s > v.recvMax {
      var diff := s - v.recvMax;
      forall d | 0 <= d < |w.seen|
        ensures w.seen[d] <==> d <= w.recvMax && w.recvMax - d in accepted + {s}
      {
        if 0 < d < diff {
          assert s - d > v.recvMax;
        } else if d >= diff {
          assert s - d == v.recvMax - (d - diff);
        }
      }
    } else {
      var hit := v.recvMax - s;
      assert s == v.recvMax - hit;
    }
  }

  /** Away from the 64-bit wrap, the check rejects exactly zero, numbers left of the window
      and numbers already accepted. */
  lemma RejectsExactly(v: View, accepted: set<nat>, s: nat)
    requires Represents(v, accepted) && s + |v.seen| < TWO64
    ensures Rejects(v, s) <==> s == 0 || s + |v.seen| <= v.recvMax || s in accepted
  {
    if 0 < s <= v.recvMax && s + |v.seen| > v.recvMax {
      assert v.seen[v.recvMax - s] <==> v.recvMax - (v.recvMax - s) in accepted;
    }
  }

  /** A fresh number that is not too old is let in if and only if its sum with the window
      size does not wrap or it is newer than everything seen. */
  lemma FreshAcceptedIff(v: View, accepted: set<nat>, s: nat)
    requires Represents(v, accepted) && 0 < s < TWO64
    requires s !in accepted && s + |v.seen| > v.recvMax
    ensures !Rejects(v, s) <==> s + |v.seen| < TWO64 || s > v.recvMax
  {
    Wrapped(s, |v.seen|);
    if s + |v.seen| < TWO64 {
      RejectsExactly(v, accepted, s);
    }
  }

  /** The wrap is reachable: with the shipped 64-wide window at the top of the range, the
      number just below the newest is refused although it never arrived. */
  lemma WrapRefusesFresh()
    ensures exists v :: Represents(v, {0xFFFF_FFFF_FFFF_FFFF}) && |v.seen| == 64 && Rejects(v, 0xFFFF_FFFF_FFFF_FFFE)
  {
    var v := View(TWO64 - 1, seq(64, d => d == 0));
    var s := 0xFFFF_FFFF_FFFF_FFFE;
    assert Represents(v, {TWO64 - 1});
    FreshAcceptedIff(v, {TWO64 - 1}, s);
    assert Rejects(v, s);
  }
}
