/**
 * Data packets as the buffers and the data path see them (internal/packet/packet.go,
 * internal/packet/header.go).
 */
module Packets {
  import opened SeqNum

  type Bytes = seq<bv8>

  datatype Option<+T> = None | Some(value: T)

  datatype Position = Middle | Last | First | Single {
    predicate EndsMessage() {
      Last? || Single?
    }
    predicate StartsMessage() {
      First? || Single?
    }
  }

  datatype Packet = Packet(
    seqNo: Num,
    timestamp: nat,
    pos: Position,
    order: bool,
    retransmitted: bool,
    msgNo: nat,
    data: Bytes)
  {
    /** The clone a retransmission sends: same packet with the R bit set. */
    function Rexmit(): Packet {
      this.(retransmitted := true)
    }
  }

  function Payloads(ps: seq<Packet>): Bytes {
    if ps == [] then [] else Payloads(ps[..|ps| - 1]) + ps[|ps| - 1].data
  }
}
