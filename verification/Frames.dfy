/** The plaintext that travels inside one encrypted datagram: a tunnel header and a payload. */
module Frames {

  newtype byte = x: int | 0 <= x < 256

  datatype Option<+T> = None | Some(value: T)

  const HEADER_LEN: nat := 24
  const MAX_FRAG: nat := 1600
  const MAX_PACKET_SIZE: nat := 2500
  const REASSEMBLY_TIMEOUT: nat := 20

  const FLAG_MORE: nat := 0x8000
  const FLAG_FINAL: nat := 0
  const PKT_CTRL_KEEPALIVE: nat := 0x02
  const PKT_DUMMY: nat := 0xFF

  type SessionId = id: seq<byte> | |id| == 16 witness Zeros(16)

  datatype Header = Header(packetId: nat, offset: nat, totalLen: nat, flags: nat)

  datatype Frame = Frame(header: Header, payload: seq<byte>)

  function Zeros(n: nat): (z: seq<byte>)
    ensures |z| == n
  {
    seq(n, _ => 0 as byte)
  }

  /** What one key exchange yields: a session id, the key to receive with and the key to send
      with. */
  datatype Keys = Keys(sid: SessionId, kRecv: nat, kSend: nat)
}
