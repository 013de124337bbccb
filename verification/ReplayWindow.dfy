/** The sliding bitmap of `replay_window.c`, kept in an array of words and shifted in place.
    Its methods are proved against the views of module ReplayView. */
module ReplayWindow {
  import opened Words
  import opened ReplayView

  /** Bit d of the bitmap, read across words: 0 is the newest number. */
  predicate BitOf(words: seq<Word>, d: nat)
    requires d < 64 * |words|
  {
    words[d / 64][d % 64]
  }

  function Bits(words: seq<Word>): (b: Bitmap)
    requires |words| > 0
    ensures |b| == 64 * |words|
  {
    seq(64 * |words|, d requires 0 <= d < 64 * |words| => BitOf(words, d))
  }

  /** Whole words moved by q, then bits moved by r, is one wide shift by 64 * q + r. */
  lemma UpTwice(b: Bitmap, m: nat, n: nat)
    ensures Up(Up(b, m), n) == Up(b, m + n)
  {
  }

  /** The bitmap after is the bitmap before, shifted left by n as one wide number. */
  ghost predicate Shifted(before: seq<Word>, after: seq<Word>, n: nat)
  {
    |before| == |after| > 0 && Bits(after) == Up(Bits(before), n)
  }

  lemma ShiftedTwice(a: seq<Word>, b: seq<Word>, c: seq<Word>, m: nat, k: nat, n: nat)
    requires Shifted(a, b, m) && Shifted(b, c, k) && n == m + k
    ensures Shifted(a, c, n)
  {
    UpTwice(Bits(a), m, k);
  }

  lemma WordsMoved(a: seq<Word>, b: seq<Word>, q: nat, n: nat)
    requires |a| == |b| > 0 && n == 64 * q
    requires forall j :: 0 <= j < |b| ==> b[j] == if j >= q then a[j - q] else ZERO
    ensures Shifted(a, b, n)
  {
    forall d | 0 <= d < 64 * |b|
      ensures BitOf(b, d) <==> d >= 64 * q && BitOf(a, d - 64 * q)
    {
      if d / 64 >= q {
        assert (d - 64 * q) / 64 == d / 64 - q && (d - 64 * q) % 64 == d % 64;
      }
    }
  }

  /** Word j of a shift by r: its own bits moved up, then the top bits of word j - 1. */
  function Carried(a: seq<Word>, j: nat, r: nat): Word
    requires j < |a| && 0 < r < 64
  {
    seq(64, k requires 0 <= k < 64 => if k >= r then a[j][k - r] else j > 0 && a[j - 1][k + 64 - r])
  }

  lemma BitsMoved(a: seq<Word>, b: seq<Word>, r: nat)
    requires |a| == |b| > 0 && 0 < r < 64
    requires forall j :: 0 <= j < |b| ==> b[j] == Carried(a, j, r)
    ensures Shifted(a, b, r)
  {
    forall d | 0 <= d < 64 * |b|
      ensures BitOf(b, d) <==> d >= r && BitOf(a, d - r)
    {
      var j, k := d / 64, d % 64;
      assert b[j] == Carried(a, j, r);
      if k >= r {
        assert (d - r) / 64 == j && (d - r) % 64 == k - r;
      } else if j > 0 {
        assert (d - r) / 64 == j - 1 && (d - r) % 64 == k + 64 - r;
      }
    }
  }

  /** Once shifted by diff, the lowest diff bits are clear: the source's mask changes nothing. */
  lemma MaskChangesNothing(before: seq<Word>, after: seq<Word>, diff: nat)
    requires Shifted(before, after, diff)
    ensures AndNot(after[0], LowMask(if diff >= 64 then 0 else diff)) == after[0]
  {
    forall k | 0 <= k < 64
      ensures k < diff ==> !after[0][k]
    {
      assert after[0][k] == BitOf(after, k) == Bits(after)[k];
    }
  }

  lemma BitMarked(before: seq<Word>, after: seq<Word>, b: nat)
    requires b < 64 * |before|
    requires after == before[b / 64 := Or(before[b / 64], One(b % 64))]
    ensures Bits(after) == Bits(before)[b := true]
  {
    forall d | 0 <= d < 64 * |after|
      ensures BitOf(after, d) <==> d == b || BitOf(before, d)
    {
      if d / 64 == b / 64 && d % 64 == b % 64 {
        assert d == 64 * (d / 64) + d % 64 && b == 64 * (b / 64) + b % 64;
      }
    }
  }

  lemma NewerView(a: seq<Word>, b: seq<Word>, c: seq<Word>, recvMax: nat, s: nat, diff: nat)
    requires Shifted(a, b, diff) && |c| == |b| && Bits(c) == Bits(b)[0 := true] && diff == s - recvMax > 0
    ensures View(s, Bits(c)) == Advance(View(recvMax, Bits(a)), s)
  {
  }

  class Window {
    var recvMax: nat
    const bitmap: array<Word>

    ghost predicate Valid()
      reads this, bitmap
    {
      recvMax < TWO64 && 0 < bitmap.Length && 64 * bitmap.Length < TWO64
    }

    ghost function Contents(): (v: View)
      reads this, bitmap
      requires Valid()
      ensures WellFormed(v) && |v.seen| == 64 * bitmap.Length
    {
      View(recvMax, Bits(bitmap[..]))
    }

    constructor (words: nat)
      requires 0 < words && 64 * words < TWO64
      ensures Valid() && fresh(bitmap) && bitmap.Length == words
      ensures Represents(Contents(), {})
    {
      recvMax := 0;
      bitmap := new Word[words](_ => ZERO);
    }

    method Check(s: nat) returns (replay: bool)
      requires Valid() && s < TWO64
      ensures replay == Rejects(Contents(), s)
    {
      if s == 0 { return true; }
      if s > recvMax { return false; }
      if (s + 64 * bitmap.Length) % TWO64 <= recvMax { return true; }
      ghost var v := Contents();
      Wrapped(s, |v.seen|);
      var bitIndex := recvMax - s;
      replay := bitmap[bitIndex / 64][bitIndex % 64];
      assert replay == v.seen[bitIndex];
    }

    method ShiftWords(q: nat, ghost n: nat)
      requires Valid() && n == 64 * q
      modifies bitmap
      ensures Shifted(old(bitmap[..]), bitmap[..], n)
    {
      var i := bitmap.Length - 1;
      while i >= 0
        invariant -1 <= i < bitmap.Length
        invariant forall j :: 0 <= j <= i ==> bitmap[j] == old(bitmap[j])
        invariant forall j :: i < j < bitmap.Length ==> bitmap[j] == if j >= q then old(bitmap[j - q]) else ZERO
      {
        var val := ZERO;
        if i >= q { val := bitmap[i - q]; }
        bitmap[i] := val;
        i := i - 1;
      }
      WordsMoved(old(bitmap[..]), bitmap[..], q, n);
    }

    method ShiftBits(r: nat)
      requires Valid() && 0 < r < 64
      modifies bitmap
      ensures Shifted(old(bitmap[..]), bitmap[..], r)
    {
      ghost var a := bitmap[..];
      var i := bitmap.Length - 1;
      while i >= 0
        invariant -1 <= i < bitmap.Length
        invariant forall j :: 0 <= j <= i ==> bitmap[j] == a[j]
        invariant forall j :: i < j < bitmap.Length ==> bitmap[j] == Carried(a, j, r)
      {
        var high := Shl(bitmap[i], r);
        var carry := ZERO;
        if i > 0 { carry := Shr(bitmap[i - 1], 64 - r); }
        bitmap[i] := Or(high, carry);
        assert bitmap[i] == Carried(a, i, r);
        i := i - 1;
      }
      BitsMoved(a, bitmap[..], r);
    }

    method ShiftFar(q: nat, r: nat, ghost n: nat)
      requires Valid() && 0 < r < 64 && n == 64 * q + r
      modifies bitmap
      ensures Shifted(old(bitmap[..]), bitmap[..], n)
    {
      ghost var a := bitmap[..];
      ghost var m := 64 * q;
      ShiftWords(q, m);
      ghost var b := bitmap[..];
      ShiftBits(r);
      ghost var c := bitmap[..];
      ShiftedTwice(a, b, c, m, r, n);
    }

    /** `bitmap[0] &= ~mask` after a shift by diff. */
    method ClearLow(diff: nat, ghost before: seq<Word>)
      requires Valid() && Shifted(before, bitmap[..], diff)
      modifies bitmap
      ensures bitmap[..] == old(bitmap[..])
    {
      MaskChangesNothing(before, bitmap[..], diff);
      bitmap[0] := AndNot(bitmap[0], LowMask(if diff >= 64 then 0 else diff));
    }

    /** The wide left shift: words first, then bits, then the mask of the vacated positions. */
    method ShiftLeft(diff: nat)
      requires Valid() && 0 < diff
      modifies bitmap
      ensures Shifted(old(bitmap[..]), bitmap[..], diff)
    {
      ghost var a := bitmap[..];
      if diff >= 64 && diff % 64 == 0 {
        ShiftWords(diff / 64, diff);
      } else if diff >= 64 {
        ShiftFar(diff / 64, diff % 64, diff);
      } else {
        ShiftBits(diff);
      }
      ClearLow(diff, a);
    }

    /** `memset(bitmap, 0)` */
    method ForgetAll()
      requires Valid()
      modifies bitmap
      ensures forall d :: 0 <= d < 64 * bitmap.Length ==> !Bits(bitmap[..])[d]
    {
      var i := 0;
      while i < bitmap.Length
        invariant 0 <= i <= bitmap.Length
        invariant forall j :: 0 <= j < i ==> bitmap[j] == ZERO
      {
        bitmap[i] := ZERO;
        i := i + 1;
      }
    }

    method Mark(b: nat)
      requires Valid() && b < 64 * bitmap.Length
      modifies bitmap
      ensures Bits(bitmap[..]) == old(Bits(bitmap[..]))[b := true]
    {
      ghost var c := bitmap[..];
      bitmap[b / 64] := Or(bitmap[b / 64], One(b % 64));
      BitMarked(c, bitmap[..], b);
    }

    /** Make room for a newer number: forget everything or shift. */
    method Slide(diff: nat)
      requires Valid() && 0 < diff
      modifies bitmap
      ensures Shifted(old(bitmap[..]), bitmap[..], diff)
    {
      if diff >= 64 * bitmap.Length {
        ForgetAll();
        assert Shifted(old(bitmap[..]), bitmap[..], diff);
      } else {
        ShiftLeft(diff);
      }
    }

    /** `update_window`: marks a number the check let pass. */
    method Update(s: nat)
      requires Valid() && s < TWO64 && (s == 0 || !Rejects(Contents(), s))
      modifies this, bitmap
      ensures Valid()
      ensures Contents() == if s == 0 then old(Contents()) else Advance(old(Contents()), s)
    {
      if s == 0 { return; }
      PassedInWindow(Contents(), s);
      if s > recvMax {
        ghost var a, was := bitmap[..], recvMax;
        var diff := s - recvMax;
        Slide(diff);
        recvMax := s;
        ghost var b := bitmap[..];
        Mark(0);
        NewerView(a, b, bitmap[..], was, s, diff);
      } else {
        Mark(recvMax - s);
      }
    }
  }
}
