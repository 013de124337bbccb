/** Packet ids: a 16-bit counter that skips zero, written two ways in the two programs. */
module PacketIds {

  /** Ids repeat with this period. */
  const PERIOD: nat := 65535

  /** The id of the k-th packet since start-up. */
  function Id(k: nat): nat { k % PERIOD + 1 }

  /** Ids are never zero, fit 16 bits, and any 65535 in a row are pairwise distinct,
      wherever the row starts. */
  lemma IdsDistinct(j: nat, k: nat)
    requires j < k < j + PERIOD
    ensures 0 < Id(j) < 65536 && Id(j) != Id(k)
  {
    assert k % PERIOD == if j % PERIOD + (k - j) < PERIOD then j % PERIOD + (k - j) else j % PERIOD + (k - j) - PERIOD;
  }

  lemma NextResidue(k: nat)
    ensures (k + 1) % PERIOD == if k % PERIOD == PERIOD - 1 then 0 else k % PERIOD + 1
  {
  }

  /** `fragment_next_packet_id`: an atomic counter, bumped again when it yields zero. */
  class ServerCounter {
    var next: nat
    ghost var drawn: nat

    ghost predicate Valid()
      reads this
    {
      next == if drawn > 0 && drawn % PERIOD == 0 then 0 else drawn % PERIOD + 1
    }

    constructor ()
      ensures Valid() && drawn == 0
    {
      next, drawn := 1, 0;
    }

    method Next() returns (id: nat)
      requires Valid()
      modifies this
      ensures Valid() && drawn == old(drawn) + 1 && id == Id(old(drawn))
    {
      id := next;
      next := (next + 1) % 65536;
      if id == 0 {
        id := next;
        next := (next + 1) % 65536;
      }
      NextResidue(drawn);
      drawn := drawn + 1;
    }
  }

  /** The client's inline counter: bumped after use, and moved on to one when it wraps.
      It yields the same ids as the server's. */
  class ClientCounter {
    var next: nat
    ghost var drawn: nat

    ghost predicate Valid()
      reads this
    {
      next == drawn % PERIOD + 1
    }

    constructor ()
      ensures Valid() && drawn == 0
    {
      next, drawn := 1, 0;
    }

    method Next() returns (id: nat)
      requires Valid()
      modifies this
      ensures Valid() && drawn == old(drawn) + 1 && id == Id(old(drawn))
    {
      id := next;
      next := (next + 1) % 65536;
      if next == 0 { next := 1; }
      NextResidue(drawn);
      drawn := drawn + 1;
    }
  }
}
