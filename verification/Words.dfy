/** 64-bit machine words as their bits, least significant first, with the C operators the
    replay window uses on `uint64_t`. */
module Words {

  /** One past the largest `uint64_t`. */
  const TWO64: nat := 0x1_0000_0000_0000_0000

  type Word = w: seq<bool> | |w| == 64 witness seq(64, _ => false)

  const ZERO: Word := seq(64, _ => false)

  /** `w << s`: bits leaving at the top are lost. */
  function Shl(w: Word, s: nat): Word
  {
    seq(64, k requires 0 <= k < 64 => k >= s && w[k - s])
  }

  /** `w >> s` */
  function Shr(w: Word, s: nat): Word
  {
    seq(64, k requires 0 <= k < 64 => k + s < 64 && w[k + s])
  }

  /** `u | w` */
  function Or(u: Word, w: Word): Word
  {
    seq(64, k requires 0 <= k < 64 => u[k] || w[k])
  }

  /** `u & ~w` */
  function AndNot(u: Word, w: Word): Word
  {
    seq(64, k requires 0 <= k < 64 => u[k] && !w[k])
  }

  /** `1ULL << b` */
  function One(b: nat): Word
  {
    seq(64, k => k == b)
  }

  /** `(1ULL << s) - 1` */
  function LowMask(s: nat): Word
  {
    seq(64, k => k < s)
  }
}
