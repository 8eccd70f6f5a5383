/** client/rbudp.c end to end with any losses: the originals of one numbering cycle come out of the channel in
    order, any of them may be lost, and answers to requests come at any time, any number of times or never,
    but not 100 numbers or more after the one awaited, which would start the receiver over. */
module RbudpLossy {
  import opened RbudpPackets
  import opened RbudpReceiver
  import opened RbudpDelivery

  /** The originals before `pos` have left the channel; `taken` are those that came through, in the original
      or in a repair that came in time; `asked` are the numbers requested. */
  datatype Net = Net(l: Log, pos: nat, taken: set<nat>, asked: set<nat>)

  datatype Step = Deliver(from: int) | Lose | Mend(j: nat, from: int)

  /** Originals of one tag, numbered without a wrap from `base` on. */
  predicate Cycle(sent: seq<Packet>, base: nat, tag: int) {
    && 1 <= base && base + |sent| <= 65535
    && forall j :: 0 <= j < |sent| ==> sent[j].seqno == base + j && sent[j].kind == Original && sent[j].tag == tag
  }

  function Join(tag: int): Net {
    Net(Log(Start(tag), [], [], [], [], []), 0, {}, {})
  }

  predicate Enabled(sent: seq<Packet>, base: nat, n: Net, step: Step) {
    match step
    case Deliver(_) => n.pos < |sent|
    case Lose => n.pos < |sent|
    case Mend(j, _) => j < |sent| && base + j in n.asked && n.l.r.expected < base + j + 100
  }

  function Numbers(asked: seq<Demand>): set<nat> {
    set k | 0 <= k < |asked| :: asked[k].number
  }

  ghost function Apply(sent: seq<Packet>, base: nat, n: Net, step: Step): Net
    requires Valid(n.l.r) && Cycle(sent, base, n.l.r.tag) && Enabled(sent, base, n, step)
  {
    match step
    case Deliver(from) =>
      var l := Take(n.l, Arrival(sent[n.pos], from));
      Net(l, n.pos + 1, n.taken + {n.pos}, Numbers(l.asked))
    case Lose => n.(pos := n.pos + 1)
    case Mend(j, from) =>
      var l := Take(n.l, Arrival(AsRepair(sent[j]), from));
      Net(l, n.pos, if base + j == n.l.r.expected then n.taken + {j} else n.taken, Numbers(l.asked))
  }

  ghost predicate Run(sent: seq<Packet>, base: nat, n: Net, steps: seq<Step>, t: Net)
    decreases |steps|
  {
    if steps == [] then n == t
    else
      && Valid(n.l.r) && Cycle(sent, base, n.l.r.tag) && Enabled(sent, base, n, steps[0])
      && Run(sent, base, Apply(sent, base, n, steps[0]), steps[1..], t)
  }

  // ---------- the invariant ----------

  /** A packet is broadcast j, or its repair. */
  predicate Copy(sent: seq<Packet>, base: nat, p: Packet, j: nat) {
    j < |sent| && p.seqno == base + j && (p == sent[j] || p == AsRepair(sent[j]))
  }

  /** A packet is a copy of a broadcast taken. */
  predicate Good(sent: seq<Packet>, base: nat, p: Packet, taken: set<nat>) {
    p.seqno >= base && Copy(sent, base, p, p.seqno - base) && p.seqno - base in taken
  }

  ghost predicate Genuine(sent: seq<Packet>, base: nat, ps: seq<Packet>, taken: set<nat>) {
    forall p :: p in ps ==> Good(sent, base, p, taken)
  }

  predicate Has(ps: seq<Packet>, number: nat) {
    exists k :: 0 <= k < |ps| && ps[k].seqno == number
  }

  ghost predicate Inv(sent: seq<Packet>, base: nat, tag: int, n: Net) {
    && Cycle(sent, base, tag) && Valid(n.l.r) && n.l.r.tag == tag && n.pos <= |sent|
    && InOrder(n.l, 0) && LastOriginal(n.l.heard) < base + n.pos && n.l.r.expected <= base + n.pos
    && Genuine(sent, base, n.l.committed, n.taken) && Genuine(sent, base, n.l.r.wait, n.taken)
    && (forall j :: j in n.taken ==> j < n.pos && (Has(n.l.committed, base + j) || Has(n.l.r.wait, base + j)))
    && (forall a :: a in n.asked ==> a <= n.l.r.expected && a < base + n.pos)
    && n.asked == Numbers(n.l.asked)
  }

  /** A datagram that is not too late stays: it and what waited are committed or waiting. */
  lemma Kept(r: Receiver, p: Packet, from: int)
    requires Valid(r) && p.seqno <= 65535 && p.tag == r.tag && !Restarts(r, p)
    ensures
      var out := Receive(r, p, from);
      && (p.seqno >= r.expected ==> p in out.committed || p in out.r.wait)
      && (forall x :: x in r.wait ==> x in out.committed || x in out.r.wait)
      && (forall x :: x in out.committed || x in out.r.wait ==> x in r.wait || (x == p && p.seqno >= r.expected))
  {
    assert forall x :: x in [p] + r.wait <==> x == p || x in r.wait;
    hide After;
  }

  lemma Asked(r: Receiver, p: Packet, from: int)
    requires Valid(r) && p.seqno <= 65535 && p.tag == r.tag && !Restarts(r, p)
    ensures
      var out := Receive(r, p, from);
      forall k :: 0 <= k < |out.asked| ==> out.asked[k].number == out.r.expected && out.r.wait != []
  {
  }

  /** A copy of broadcast j arrives: the next original, or a repair that is not beyond what is awaited. */
  predicate Arrives(sent: seq<Packet>, base: nat, n: Net, p: Packet, j: nat) {
    && j < |sent| && base + |sent| <= 65535
    && ((p == sent[j] && p.kind == Original && j == n.pos)
        || (p == AsRepair(sent[j]) && base + j <= n.l.r.expected < base + j + 100))
  }

  lemma ArrivesOrderly(sent: seq<Packet>, base: nat, tag: int, n: Net, p: Packet, j: nat, from: int)
    requires Inv(sent, base, tag, n) && Arrives(sent, base, n, p, j)
    ensures p.seqno == base + j && p.tag == tag && Orderly(n.l, Arrival(p, from))
  {
    var c := n.l.committed;
    if c != [] {
      assert c[|c| - 1] in c;
    }
    hide InOrder, Has;
  }

  /** What Take adds to the packets kept, and the awaited number. */
  lemma TakeKeeps(sent: seq<Packet>, base: nat, tag: int, n: Net, p: Packet, j: nat, from: int)
    requires Inv(sent, base, tag, n) && Arrives(sent, base, n, p, j)
    ensures p.seqno == base + j
    ensures
      var l, r := Take(n.l, Arrival(p, from)), n.l.r;
      && InOrder(l, 0) && l.r.tag == tag && r.expected <= l.r.expected
      && (forall x :: x in n.l.committed || x in r.wait ==> x in l.committed || x in l.r.wait)
      && (forall x :: x in l.committed || x in l.r.wait ==>
            x in n.l.committed || x in r.wait || (x == p && p.seqno >= r.expected))
      && (p.seqno >= r.expected ==> p in l.committed || p in l.r.wait)
      && (forall a :: a in Numbers(l.asked) ==> a in Numbers(n.l.asked) || (a == l.r.expected && l.r.wait != []))
  {
    ArrivesOrderly(sent, base, tag, n, p, j, from);
    TakeInOrder(n.l, Arrival(p, from), 0);
    Kept(n.l.r, p, from);
    Asked(n.l.r, p, from);
    Grows(n.l, p, from);
    hide Receive, InOrder, Orderly, Genuine, Has;
  }

  lemma Grows(l: Log, p: Packet, from: int)
    requires Valid(l.r) && p.seqno < 65535 && InOrder(l, 0) && Orderly(l, Arrival(p, from))
    requires forall x :: x in l.r.wait ==> x.seqno < 65535
    ensures l.r.expected <= Receive(l.r, p, from).r.expected && Receive(l.r, p, from).r.tag == l.r.tag
  {
    var out := Receive(l.r, p, from);
    ReceiveInOrder(l.r, p, from, LastOriginal(l.heard));
    Kept(l.r, p, from);
    SameTag(l.r, p, from);
    hide Receive, Increasing, QueueInOrder;
    if out.committed != [] {
      assert out.committed[|out.committed| - 1] in out.committed;
    }
  }

  lemma SameTag(r: Receiver, p: Packet, from: int)
    requires Valid(r) && p.seqno <= 65535
    ensures Receive(r, p, from).r.tag == r.tag
  {
  }

  lemma StaysGenuine(sent: seq<Packet>, base: nat, tag: int, n: Net, p: Packet, j: nat, from: int, taken: set<nat>)
    requires Inv(sent, base, tag, n) && Arrives(sent, base, n, p, j) && n.taken <= taken
    requires p.seqno >= n.l.r.expected ==> j in taken
    ensures
      var l := Take(n.l, Arrival(p, from));
      Genuine(sent, base, l.committed, taken) && Genuine(sent, base, l.r.wait, taken)
  {
    TakeKeeps(sent, base, tag, n, p, j, from);
    hide InOrder, Take, Has, Arrives, Cycle;
    var l := Take(n.l, Arrival(p, from));
    forall x | x in l.committed || x in l.r.wait ensures Good(sent, base, x, taken) {
      if !(x in n.l.committed || x in n.l.r.wait) {
        ArrivedGood(sent, base, n, p, j, taken);
      } else {
        assert Good(sent, base, x, n.taken);
      }
    }
  }

  lemma ArrivedGood(sent: seq<Packet>, base: nat, n: Net, p: Packet, j: nat, taken: set<nat>)
    requires Arrives(sent, base, n, p, j) && p.seqno == base + j && j in taken
    ensures Good(sent, base, p, taken)
  {
  }

  lemma HasIn(ps: seq<Packet>, p: Packet)
    requires p in ps
    ensures Has(ps, p.seqno)
  {
    var k :| 0 <= k < |ps| && ps[k] == p;
    assert ps[k].seqno == p.seqno;
  }

  lemma StaysHeld(sent: seq<Packet>, base: nat, tag: int, n: Net, p: Packet, j: nat, from: int, i: nat)
    requires Inv(sent, base, tag, n) && Arrives(sent, base, n, p, j)
    requires i in n.taken || (i == j && p.seqno >= n.l.r.expected)
    ensures
      var l := Take(n.l, Arrival(p, from));
      Has(l.committed, base + i) || Has(l.r.wait, base + i)
  {
    TakeKeeps(sent, base, tag, n, p, j, from);
    var l, x := Take(n.l, Arrival(p, from)), p;
    hide InOrder, Take, Genuine;
    if i in n.taken {
      if Has(n.l.committed, base + i) {
        var k :| 0 <= k < |n.l.committed| && n.l.committed[k].seqno == base + i;
        x := n.l.committed[k];
      } else {
        var k :| 0 <= k < |n.l.r.wait| && n.l.r.wait[k].seqno == base + i;
        x := n.l.r.wait[k];
      }
    }
    hide Has;
    if x in l.committed {
      HasIn(l.committed, x);
    } else {
      HasIn(l.r.wait, x);
    }
  }

  /** The awaited number is at most one past what came through. */
  lemma AwaitsNext(sent: seq<Packet>, base: nat, l: Log, taken: set<nat>, pos: nat)
    requires InOrder(l, 0) && Genuine(sent, base, l.committed, taken) && Genuine(sent, base, l.r.wait, taken)
    requires base + |sent| <= 65535 && forall j :: j in taken ==> j < pos
    ensures l.r.expected <= base + pos && (l.r.wait != [] ==> l.r.expected < base + pos)
  {
    if l.committed != [] {
      assert l.committed[|l.committed| - 1] in l.committed;
    }
    if l.r.wait != [] {
      assert l.r.wait[0] in l.r.wait;
    }
  }

  lemma ArrivalKeepsInv(sent: seq<Packet>, base: nat, tag: int, n: Net, p: Packet, j: nat, from: int, u: Net)
    requires Inv(sent, base, tag, n) && Arrives(sent, base, n, p, j)
    requires u.l == Take(n.l, Arrival(p, from)) && u.asked == Numbers(u.l.asked) && n.pos <= u.pos <= |sent|
    requires u.taken == n.taken + if p.seqno >= n.l.r.expected then {j} else {}
    requires forall i :: i in u.taken ==> i < u.pos
    requires LastOriginal(u.l.heard) < base + u.pos
    ensures Inv(sent, base, tag, u)
  {
    hide InOrder, Take, Has, Genuine, Numbers, LastOriginal, Arrives;
    TakeKeeps(sent, base, tag, n, p, j, from);
    StaysGenuine(sent, base, tag, n, p, j, from, u.taken);
    AwaitsNext(sent, base, u.l, u.taken, u.pos);
    forall i | i in u.taken ensures Has(u.l.committed, base + i) || Has(u.l.r.wait, base + i) {
      StaysHeld(sent, base, tag, n, p, j, from, i);
    }
  }

  lemma StepKeepsInv(sent: seq<Packet>, base: nat, tag: int, n: Net, step: Step)
    requires Inv(sent, base, tag, n) && Enabled(sent, base, n, step)
    ensures Inv(sent, base, tag, Apply(sent, base, n, step))
  {
    match step
    case Deliver(from) =>
      assert (n.l.heard + [sent[n.pos]])[..|n.l.heard|] == n.l.heard;
      hide InOrder, Has, Genuine;
      ArrivalKeepsInv(sent, base, tag, n, sent[n.pos], n.pos, from, Apply(sent, base, n, step));
    case Lose => hide InOrder, Has, Genuine;
    case Mend(j, from) =>
      assert (n.l.heard + [AsRepair(sent[j])])[..|n.l.heard|] == n.l.heard;
      hide InOrder, Has, Genuine;
      ArrivalKeepsInv(sent, base, tag, n, AsRepair(sent[j]), j, from, Apply(sent, base, n, step));
  }

  lemma {:induction false} RunKeepsInv(sent: seq<Packet>, base: nat, tag: int, n: Net, steps: seq<Step>, t: Net)
    requires Inv(sent, base, tag, n) && Run(sent, base, n, steps, t)
    ensures Inv(sent, base, tag, t)
    decreases |steps|
  {
    if steps != [] {
      StepKeepsInv(sent, base, tag, n, steps[0]);
      RunKeepsInv(sent, base, tag, Apply(sent, base, n, steps[0]), steps[1..], t);
    }
  }

  lemma JoinInv(sent: seq<Packet>, base: nat, tag: int)
    requires Cycle(sent, base, tag)
    ensures Inv(sent, base, tag, Join(tag))
  {
    hide Cycle, Good, Has;
  }

  lemma TakenExactly(sent: seq<Packet>, base: nat, tag: int, t: Net, j: nat)
    requires Inv(sent, base, tag, t)
    ensures j in t.taken <==> Has(t.l.committed, base + j) || Has(t.l.r.wait, base + j)
  {
    hide Genuine, InOrder, Has, Cycle;
    if Has(t.l.committed, base + j) {
      HasIsTaken(sent, base, t.l.committed, t.taken, j);
    } else if Has(t.l.r.wait, base + j) {
      HasIsTaken(sent, base, t.l.r.wait, t.taken, j);
    }
  }

  lemma AllCopies(sent: seq<Packet>, base: nat, tag: int, t: Net, p: Packet)
    requires Inv(sent, base, tag, t) && (p in t.l.committed || p in t.l.r.wait)
    ensures base <= p.seqno < base + t.pos && Copy(sent, base, p, p.seqno - base)
  {
    assert Good(sent, base, p, t.taken);
    hide InOrder, Has, Cycle;
  }

  lemma HasIsTaken(sent: seq<Packet>, base: nat, ps: seq<Packet>, taken: set<nat>, j: nat)
    requires Genuine(sent, base, ps, taken) && Has(ps, base + j)
    ensures j in taken
  {
    var k :| 0 <= k < |ps| && ps[k].seqno == base + j;
    assert Good(sent, base, ps[k], taken);
  }

  /** Over any run of one cycle, whatever is lost: what is committed are the broadcasts, unaltered but for the
      mark of a repair, in strictly increasing order. A broadcast is committed or waits exactly if it came
      through, in the original or in a repair that came while its number was awaited; so only what was
      lost, and not repaired in time, is skipped. */
  lemma OnlyLostAreSkipped(sent: seq<Packet>, base: nat, tag: int, steps: seq<Step>, t: Net)
    requires Cycle(sent, base, tag) && Run(sent, base, Join(tag), steps, t)
    ensures Increasing(t.l.committed) && t.pos <= |sent|
    ensures forall p :: p in t.l.committed || p in t.l.r.wait ==>
              base <= p.seqno < base + t.pos && Copy(sent, base, p, p.seqno - base)
    ensures forall j: nat :: j in t.taken <==> Has(t.l.committed, base + j) || Has(t.l.r.wait, base + j)
  {
    JoinInv(sent, base, tag);
    RunKeepsInv(sent, base, tag, Join(tag), steps, t);
    assert Increasing(t.l.committed) && t.pos <= |sent|;
    hide Inv, Run, Cycle, Has, Copy, Increasing;
    forall p | p in t.l.committed || p in t.l.r.wait
      ensures base <= p.seqno < base + t.pos && Copy(sent, base, p, p.seqno - base)
    {
      AllCopies(sent, base, tag, t, p);
    }
    forall j: nat ensures j in t.taken <==> Has(t.l.committed, base + j) || Has(t.l.r.wait, base + j) {
      TakenExactly(sent, base, tag, t, j);
    }
  }
}
