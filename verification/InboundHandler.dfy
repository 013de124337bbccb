/** The inbound handler over its real state: the bitmap window and the slot table, both
    changed in place, proved to do what module DataPath says. */
module InboundHandler {
  import opened Words
  import opened Frames
  import opened ReplayView
  import opened ReplayWindow
  import opened Reassembly
  import opened ReassemblySafety
  import opened DataPath

  class Session {
    const window: Window
    const table: Table

    ghost predicate Valid()
      reads this, window, window.bitmap
    {
      window.Valid()
    }

    ghost function State(): Receiver
      reads this, window, window.bitmap, table, table.slots
      requires Valid()
    {
      Receiver(window.Contents(), table.slots[..])
    }

    /** A slot at server start-up: BITMAP_WORDS words of window, empty reassembly slots. */
    constructor (words: nat, slots: nat)
      requires 0 < words && 64 * words < TWO64
      ensures Valid() && Fresh(State())
      ensures fresh(window) && fresh(window.bitmap) && fresh(table) && fresh(table.slots)
    {
      window := new Window(words);
      table := new Table(slots);
    }

    /** What a new session on the slot gets: the window zeroed, the reassembly slots as they are. */
    method TakeOver()
      requires Valid()
      modifies window, window.bitmap
      ensures Valid() && State().table == old(State().table)
      ensures Unique(old(State().table)) ==> Fresh(State())
    {
      window.ForgetAll();
      window.recvMax := 0;
    }

    /** The DATA half of `handle_inbound_udp`, and of the client's `handle_udp_packet`. */
    method HandleInbound(s: nat, plain: Option<Frame>, now: int) returns (out: Option<seq<byte>>)
      requires Valid() && s < TWO64
      modifies window, window.bitmap, table.slots
      ensures Valid()
      ensures var r := Handle(Trace(old(State()), [], []), Datagram(s, plain, now));
              State() == r.receiver && r.writes == if out.Some? then [Write(s, out.value)] else []
    {
      out := None;
      var replay := window.Check(s);
      if replay || plain.None? { return; }
      window.Update(s);
      if IsControl(plain.value) { return; }
      out := table.ReceiveFrame(plain.value, now);
    }
  }
}
