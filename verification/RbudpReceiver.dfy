/** client/rbudp.c, receiving side: the expected number and the wait queue. */
module RbudpReceiver {
  import opened RbudpPackets
  import opened Cfifo

  const WAIT_MAX := 7  // an 8-slot ring holds 7

  /** `src` is where the last original came from. */
  datatype Receiver = Receiver(tag: int, expected: nat, wait: seq<Packet>, src: int)

  /** What one datagram led to: packets handed to the callback, one kept back, packets thrown away,
      and at most one request. */
  datatype Outcome = Outcome(
    r: Receiver, committed: seq<Packet>, dropped: seq<Packet>, discarded: seq<Packet>, asked: seq<Demand>)

  datatype Demand = Demand(number: nat, to: int)

  function Start(tag: int): Receiver {
    Receiver(tag, 0, [], 0)
  }

  ghost predicate Valid(r: Receiver) {
    r.expected <= 65535 && |r.wait| <= WAIT_MAX && forall k :: 0 <= k < |r.wait| ==> r.wait[k].seqno <= 65535
  }

  function After(number: nat): (n: nat)
    requires number <= 65535
    ensures n <= 65535
  {
    (number + 1) % 65536
  }

  /** The number is behind by less than 100: too late. */
  predicate TooLate(r: Receiver, p: Packet) {
    p.seqno < r.expected && r.expected - p.seqno < 100
  }

  /** The number is behind by 100 or more: start over. */
  predicate Restarts(r: Receiver, p: Packet) {
    r.expected - p.seqno >= 100
  }

  /** The first half of the loop body: restart, or skip a gap of several. */
  function Adjust(r: Receiver, p: Packet): Receiver {
    if p.seqno < r.expected then r.(wait := [], expected := 0)
    else if p.seqno > r.expected && r.wait == [] && p.seqno - r.expected > 1 then r.(expected := p.seqno)
    else r
  }

  function Hear(r: Receiver, p: Packet, from: int): Receiver {
    if p.kind == Original then r.(src := from) else r
  }

  /** The second half: commit a batch, move forward over a gap, or keep the packet. */
  function Place(q: Receiver, p: Packet): Outcome
    requires Valid(q) && p.seqno <= 65535
  {
    if p.seqno == q.expected || q.expected == 0 then
      var batch := [p] + q.wait;
      Outcome(q.(wait := [], expected := After(batch[|batch| - 1].seqno)), batch, [], [], [])
    else if |q.wait| == WAIT_MAX then
      Outcome(q.(wait := [], expected := After(p.seqno)), q.wait + [p], [], [], [])
    else
      Outcome(q.(wait := q.wait + [p]), [], [], [], if q.wait == [] then [Demand(q.expected, q.src)] else [])
  }

  /** One datagram through the loop of rbudp_run_recv. */
  function Receive(r0: Receiver, p: Packet, from: int): Outcome
    requires Valid(r0) && p.seqno <= 65535
  {
    if p.tag != r0.tag then Outcome(r0, [], [], [], [])
    else
      var r := Hear(r0, p, from);
      if TooLate(r, p) then Outcome(r, [], [p], [], [])
      else Place(Adjust(r, p), p).(discarded := if Restarts(r, p) then r.wait else [])
  }

  lemma ReceiveValid(r: Receiver, p: Packet, from: int)
    requires Valid(r) && p.seqno <= 65535
    ensures Valid(Receive(r, p, from).r)
  {
  }

  /** What becomes of a datagram of the receiver's tag, by its number and the awaited one: less than 100 behind
      it is dropped; 100 behind or more it starts the receiver over; the awaited one, or any when none is, is
      committed with all that waits; beyond it, it is committed and the gap skipped when nothing waits and more
      than one is missing; else it waits, as one of at most 7, and the eighth pushes all of them out. */
  lemma WhatBecomesOf(r: Receiver, p: Packet, from: int)
    requires Valid(r) && p.seqno <= 65535 && p.tag == r.tag
    ensures
      var out, e, s := Receive(r, p, from), r.expected, p.seqno;
      if s < e && e - s < 100 then
        out.dropped == [p] && out.committed == [] && out.r.wait == r.wait && out.r.expected == e
      else
        out.dropped == []
        && if s < e then
             out.discarded == r.wait && out.committed == [p] && out.r.wait == [] && out.r.expected == (s + 1) % 65536
           else
             out.discarded == []
             && if s == e || e == 0 || (r.wait == [] && s > e + 1) then
                  out.committed == [p] + r.wait && out.r.wait == []
                  && out.r.expected == (([p] + r.wait)[|r.wait|].seqno + 1) % 65536
                else if |r.wait| < 7 then
                  out.committed == [] && out.r.wait == r.wait + [p] && out.r.expected == e
                else
                  out.committed == r.wait + [p] && out.r.wait == [] && out.r.expected == (s + 1) % 65536
  {
  }

  /** The static variables of the source, with the wait queue in its 8-slot ring. */
  class ReceiverLoop {
    var tag: int
    var expected: nat
    var src: int
    const waitPacks: Fifo<Packet>
    var committed: seq<Packet>   // what the callback was given
    var asked: seq<Demand>          // requests sent

    ghost predicate Ok()
      reads this, waitPacks, waitPacks.data
    {
      waitPacks.Valid() && waitPacks.size == 8 && Valid(Value())
    }

    ghost function Value(): Receiver
      requires waitPacks.Valid()
      reads this, waitPacks, waitPacks.data
    {
      Receiver(tag, expected, waitPacks.Contents(), src)
    }

    constructor (tag: int)
      ensures Ok() && Value() == Start(tag) && committed == [] && asked == []
      ensures fresh(waitPacks) && fresh(waitPacks.data)
    {
      this.tag, expected, src := tag, 0, 0;
      committed, asked := [], [];
      waitPacks := new Fifo(3);
      assert Pow2(3) == 8;
    }

    /** get_wait: -1 for NULL, else the slot; the slot is read after a put_wait may have followed. */
    method GetWait() returns (slot: int)
      requires Ok()
      modifies waitPacks`out
      ensures Ok() && -1 <= slot < 8
      ensures slot == -1 <==> old(waitPacks.Contents()) == []
      ensures slot == -1 ==> waitPacks.Contents() == []
      ensures slot >= 0 ==>
                && slot != waitPacks.inn
                && waitPacks.data[slot] == old(waitPacks.Contents())[0]
                && waitPacks.Contents() == old(waitPacks.Contents())[1..]
    {
      var empty := waitPacks.Empty();
      if empty {
        return -1;
      }
      var failed, s := waitPacks.Out();
      slot := s;
    }

    /** do { commit; next = get_wait } while next, started with p */
    method CommitFrom(p: Packet)
      requires Ok() && p.seqno <= 65535
      modifies this`expected, this`committed, waitPacks`out
      ensures Ok() && waitPacks.Contents() == []
      ensures committed == old(committed) + [p] + old(waitPacks.Contents())
      ensures expected == After(([p] + old(waitPacks.Contents()))[|old(waitPacks.Contents())|].seqno)
    {
      hide Fifo.Contents, After;
      ghost var all := committed + ([p] + waitPacks.Contents());
      var next, more := p, true;
      while more
        invariant Ok() && next.seqno <= 65535
        invariant more ==> committed + ([next] + waitPacks.Contents()) == all
        invariant !more ==> committed == all && waitPacks.Contents() == [] && expected == After(next.seqno)
        invariant !more ==> next == all[|all| - 1]
        decreases if more then 1 + |waitPacks.Contents()| else 0
      {
        committed := committed + [next];
        expected := After(next.seqno);
        assert committed + waitPacks.Contents() == all;
        var slot := GetWait();
        more := slot >= 0;
        if more {
          next := waitPacks.data[slot];
        }
      }
    }

    /** the full queue moves forward: its head leaves the ring before p enters it */
    method MoveForward(p: Packet)
      requires Ok() && p.seqno <= 65535 && |waitPacks.Contents()| == WAIT_MAX
      modifies this`expected, this`committed, waitPacks, waitPacks.data
      ensures Ok() && waitPacks.Contents() == [] && expected == After(p.seqno)
      ensures committed == old(committed) + (old(waitPacks.Contents()) + [p])
    {
      hide Fifo.Contents, After;
      ghost var waiting := waitPacks.Contents();
      var slot := GetWait();
      waitPacks.Put(p);
      assert waitPacks.data[slot] == waiting[0] && waitPacks.Contents() == waiting[1..] + [p];
      CommitFrom(waitPacks.data[slot]);
      assert [waiting[0]] + (waiting[1..] + [p]) == waiting + [p];
      assert committed == old(committed) + (waiting + [p]);
    }

    /** the branch for a number that is neither expected nor acceptable at once */
    method Postpone(p: Packet)
      requires Ok() && p.seqno <= 65535
      modifies this`expected, this`committed, this`asked, waitPacks, waitPacks.data
      ensures Ok()
      ensures |old(waitPacks.Contents())| == WAIT_MAX ==>
                waitPacks.Contents() == [] && expected == After(p.seqno)
                && committed == old(committed) + (old(waitPacks.Contents()) + [p]) && asked == old(asked)
      ensures |old(waitPacks.Contents())| < WAIT_MAX ==>
                waitPacks.Contents() == old(waitPacks.Contents()) + [p] && expected == old(expected)
                && committed == old(committed)
                && asked == old(asked) + if old(waitPacks.Contents()) == [] then [Demand(expected, src)] else []
    {
      hide Fifo.Contents, After;
      var full := waitPacks.Full();
      if full {
        MoveForward(p);
      } else {
        var empty := waitPacks.Empty();
        if empty {
          asked := asked + [Demand(expected, src)];
        }
        waitPacks.Put(p);
      }
    }

    /** the second half of the loop body */
    method Settle(p: Packet)
      requires Ok() && p.seqno <= 65535
      modifies this`expected, this`committed, this`asked, waitPacks, waitPacks.data
      ensures Ok()
      ensures var out := Place(old(Value()), p);
              Value() == out.r && committed == old(committed) + out.committed && asked == old(asked) + out.asked
    {
      hide Fifo.Contents, After;
      if p.seqno == expected || expected == 0 {
        ghost var waiting := waitPacks.Contents();
        CommitFrom(p);
        assert committed == old(committed) + ([p] + waiting);
      } else {
        Postpone(p);
      }
    }

    /** the loop body of rbudp_run_recv for one received datagram */
    method OnDatagram(p: Packet, from: int)
      requires Ok() && p.seqno <= 65535
      modifies this, waitPacks, waitPacks.data
      ensures Ok()
      ensures var out := Receive(old(Value()), p, from);
              Value() == out.r && committed == old(committed) + out.committed && asked == old(asked) + out.asked
    {
      hide Fifo.Contents, Place;
      if p.tag != tag {
        return;
      }
      if p.kind == Original {
        src := from;
      }
      if p.seqno < expected {
        if expected - p.seqno < 100 {
          return;
        }
        waitPacks.Clear();
        expected := 0;
      } else if p.seqno > expected {
        var empty := waitPacks.Empty();
        if empty && p.seqno - expected > 1 {
          expected := p.seqno;
        }
      }
      Settle(p);
    }
  }
}
