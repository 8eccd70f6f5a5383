/** client/rbudp.c: the datagrams of the protocol. */
module RbudpPackets {

  /** RBUDP_PACKET, RBUDP_RETRAN, RBUDP_REPAIR */
  datatype Kind = Original | Request | Repair

  /** struct rbudp_packet; len is |data|, the 16-bit seq is seqno. */
  datatype Packet = Packet(tag: int, kind: Kind, seqno: nat, data: seq<int>, extra: int)

  function AsRepair(p: Packet): Packet {
    p.(kind := Repair)
  }
}
