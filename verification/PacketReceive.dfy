/** serv/network.c's pack_recv and the chain of calls behind it, each with its own sense of 1 and 0:
    tag_in_dev_packet answers 1 for a packet it queued, the mixers' put answers 1 for one that is done
    with, and dev_cast_packet and pack_recv hand that on as "can be freed". */
module PacketReceive {
  import opened Cfifo

  const FIFO_MAX := 31  // a 32-slot ring

  /** What the chain looks at: the group's switch, the device's flags, and the mixer of its tag. */
  datatype Flags = Flags(disabled: bool, chairman: bool, forbidden: bool, open: bool, mixbit: bool, net: bool)

  datatype Datagram =
    | Short             // shorter than a header: the listener drops it before pack_recv
    | Unregistered      // no such device
    | Heartbeat
    | Audio(d: nat, flags: Flags)
    | RepeatRequest
    | Video
    | Unhandled         // a registered device and a type the switch does not name

  // ---------- each function as the fifo it leaves and its result ----------

  function InDevPacket(f: Flags, fifo: seq<nat>, b: nat): (seq<nat>, int) {
    if !f.mixbit then (fifo, 0) else if |fifo| == FIFO_MAX then (fifo, 0) else (fifo + [b], 1)
  }

  function SoftPut(f: Flags, fifo: seq<nat>, b: nat): (seq<nat>, int) {
    var (q, r) := InDevPacket(f, fifo, b);
    if r == 0 then (q, 1) else (q, 0)
  }

  function NetPut(fifo: seq<nat>, b: nat): (seq<nat>, int) {
    (fifo, 1)
  }

  function CastPacket(f: Flags, fifo: seq<nat>, b: nat): (seq<nat>, int) {
    var (q, r) := if f.net then NetPut(fifo, b) else SoftPut(f, fifo, b);
    (q, if r != 0 then 1 else 0)
  }

  /** The fifo is that of the device an audio packet comes from. */
  function PackRecv(g: Datagram, fifo: seq<nat>, b: nat): (seq<nat>, int)
    requires !g.Short?
  {
    match g
    case Unregistered => (fifo, 1)
    case Heartbeat => (fifo, 1)
    case RepeatRequest => (fifo, 1)
    case Video => (fifo, 1)
    case Unhandled => (fifo, 0)
    case Audio(_, f) =>
      if f.disabled && !f.chairman then (fifo, 1)
      else if f.forbidden || !f.open then (fifo, 1)
      else
        var (q, r) := CastPacket(f, fifo, b);
        (q, if r != 0 then 1 else 0)
  }

  /** The audio that is let through to a fifo with room. */
  predicate Admitted(g: Datagram, fifo: seq<nat>) {
    && g.Audio? && (!g.flags.disabled || g.flags.chairman) && !g.flags.forbidden && g.flags.open
    && !g.flags.net && g.flags.mixbit && |fifo| < FIFO_MAX
  }

  /** pack_recv answers 1, "can be freed", exactly when the buffer is in no fifo and its type is one the
      switch names. It answers 0 exactly when the fifo now ends with it, or nobody has it any more because
      the type is unknown. The fifo grows exactly for admitted audio, and never past its room. */
  lemma AnswerIsOwnership(g: Datagram, fifo: seq<nat>, b: nat)
    requires !g.Short? && |fifo| <= FIFO_MAX
    ensures
      var (q, r) := PackRecv(g, fifo, b);
      && (r == 0 || r == 1) && |q| <= FIFO_MAX && (q == fifo || q == fifo + [b])
      && (r == 1 <==> q == fifo && !g.Unhandled?)
      && (r == 0 <==> q == fifo + [b] || g.Unhandled?)
      && (q == fifo + [b] <==> Admitted(g, fifo))
  {
    assert |fifo + [b]| == |fifo| + 1;
  }

  // ---------- the code ----------

  /** A device as the receiving thread sees it. */
  class Device {
    var flags: Flags
    const packFifo: Fifo<nat>

    ghost predicate Valid()
      reads this, packFifo
    {
      packFifo.Valid() && packFifo.size == FIFO_MAX + 1
    }

    ghost function Queued(): seq<nat>
      requires Valid()
      reads this, packFifo, packFifo.data
    {
      packFifo.Contents()
    }

    constructor (flags: Flags)
      ensures Valid() && this.flags == flags && Queued() == [] && fresh(packFifo) && fresh(packFifo.data)
    {
      this.flags := flags;
      packFifo := new Fifo(5);
      assert Pow2(5) == 32;
    }

    method TagInDevPacket(pack: nat) returns (r: int)
      requires Valid()
      modifies packFifo`inn, packFifo.data
      ensures Valid() && (Queued(), r) == InDevPacket(flags, old(Queued()), pack)
    {
      if !flags.mixbit {
        return 0;
      }
      var full := packFifo.Full();
      if full {
        return 0;
      }
      packFifo.Put(pack);
      return 1;
    }

    method MixPut(pack: nat) returns (r: int)
      requires Valid()
      modifies packFifo`inn, packFifo.data
      ensures Valid()
      ensures (Queued(), r) == if flags.net then NetPut(old(Queued()), pack) else SoftPut(flags, old(Queued()), pack)
    {
      if flags.net {
        return 1;
      }
      var queued := TagInDevPacket(pack);
      if queued == 0 {
        return 1;
      } else {
        return 0;
      }
    }

    method DevCastPacket(pack: nat) returns (r: int)
      requires Valid()
      modifies packFifo`inn, packFifo.data
      ensures Valid() && (Queued(), r) == CastPacket(flags, old(Queued()), pack)
    {
      var done := MixPut(pack);
      if done != 0 {
        return 1;
      }
      return 0;
    }

    /** pack_recv for an audio packet of this device. */
    method PackRecvAudio(d: nat, pack: nat) returns (r: int)
      requires Valid()
      modifies packFifo`inn, packFifo.data
      ensures Valid() && (Queued(), r) == PackRecv(Audio(d, flags), old(Queued()), pack)
      ensures r == 1 <==> Queued() == old(Queued())
      ensures r == 0 <==> Queued() == old(Queued()) + [pack]
    {
      AnswerIsOwnership(Audio(d, flags), Queued(), pack);
      if flags.disabled && !flags.chairman {
        return 1;
      }
      if flags.forbidden || !flags.open {
        return 1;
      }
      var done := DevCastPacket(pack);
      if done != 0 {
        return 1;
      }
      return 0;
    }
  }
}
