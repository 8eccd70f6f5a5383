/** What the receiver of client/rbudp.c does over any sequence of arriving datagrams, for a fixed tag. */
module RbudpDelivery {
  import opened RbudpPackets
  import opened RbudpReceiver

  datatype Arrival = Arrival(p: Packet, from: int)

  /** `heard` lists the arrivals that carry the receiver's tag; the other lists say where each went. */
  datatype Log = Log(
    r: Receiver, heard: seq<Packet>,
    committed: seq<Packet>, dropped: seq<Packet>, discarded: seq<Packet>, asked: seq<Demand>)

  predicate Numbered(arrivals: seq<Arrival>) {
    forall k :: 0 <= k < |arrivals| ==> arrivals[k].p.seqno <= 65535
  }

  function Take(l: Log, a: Arrival): (l': Log)
    requires Valid(l.r) && a.p.seqno <= 65535
    ensures Valid(l'.r)
  {
    ReceiveValid(l.r, a.p, a.from);
    var out := Receive(l.r, a.p, a.from);
    Log(out.r, if a.p.tag == l.r.tag then l.heard + [a.p] else l.heard,
        l.committed + out.committed, l.dropped + out.dropped, l.discarded + out.discarded, l.asked + out.asked)
  }

  function Listen(tag: int, arrivals: seq<Arrival>): (l: Log)
    requires Numbered(arrivals)
    ensures Valid(l.r)
  {
    if arrivals == [] then Log(Start(tag), [], [], [], [], [])
    else Take(Listen(tag, arrivals[..|arrivals| - 1]), arrivals[|arrivals| - 1])
  }

  // ---------- conservation ----------

  lemma PlaceConserves(q: Receiver, p: Packet)
    requires Valid(q) && p.seqno <= 65535
    ensures var out := Place(q, p);
            multiset(q.wait) + multiset{p} == multiset(out.committed) + multiset(out.r.wait)
            && out.dropped == [] && out.discarded == []
  {
    hide After;
    assert multiset([p] + q.wait) == multiset{p} + multiset(q.wait);
    assert multiset(q.wait + [p]) == multiset(q.wait) + multiset{p};
  }

  lemma ReceiveConserves(r: Receiver, p: Packet, from: int)
    requires Valid(r) && p.seqno <= 65535 && p.tag == r.tag
    ensures var out := Receive(r, p, from);
            multiset(r.wait) + multiset{p} ==
            multiset(out.committed) + multiset(out.dropped) + multiset(out.discarded) + multiset(out.r.wait)
  {
    hide Place;
    var h := Hear(r, p, from);
    var out := Receive(r, p, from);
    if TooLate(h, p) {
      assert multiset(out.dropped) == multiset{p};
      assert multiset(out.committed) == multiset(out.discarded) == multiset{};
    } else {
      var q := Adjust(h, p);
      PlaceConserves(q, p);
      assert multiset(out.dropped) == multiset{};
      if Restarts(h, p) {
        assert multiset(q.wait) == multiset{};
        assert multiset(out.discarded) == multiset(r.wait);
      } else {
        assert multiset(out.discarded) == multiset{};
      }
    }
  }

  lemma Balance(heard: seq<Packet>, c: seq<Packet>, d: seq<Packet>, x: seq<Packet>, w: seq<Packet>,
                p: Packet, c': seq<Packet>, d': seq<Packet>, x': seq<Packet>, w': seq<Packet>)
    requires multiset(heard) == multiset(c) + multiset(d) + multiset(x) + multiset(w)
    requires multiset(w) + multiset{p} == multiset(c') + multiset(d') + multiset(x') + multiset(w')
    ensures multiset(heard + [p]) == multiset(c + c') + multiset(d + d') + multiset(x + x') + multiset(w')
  {
    calc {
      multiset(heard + [p]);
      multiset(heard) + multiset{p};
      (multiset(c) + multiset(d) + multiset(x)) + (multiset(w) + multiset{p});
      (multiset(c) + multiset(d) + multiset(x)) + (multiset(c') + multiset(d') + multiset(x') + multiset(w'));
      (multiset(c) + multiset(c')) + (multiset(d) + multiset(d')) + (multiset(x) + multiset(x')) + multiset(w');
    }
    assert multiset(c + c') == multiset(c) + multiset(c');
    assert multiset(d + d') == multiset(d) + multiset(d');
    assert multiset(x + x') == multiset(x) + multiset(x');
  }

  /** Every datagram heard is exactly one of: committed once, dropped as late, waiting, or thrown away
      by a restart. */
  lemma {:induction false} EachHeardOnce(tag: int, arrivals: seq<Arrival>)
    requires Numbered(arrivals)
    ensures var l := Listen(tag, arrivals);
            multiset(l.heard) ==
            multiset(l.committed) + multiset(l.dropped) + multiset(l.discarded) + multiset(l.r.wait)
  {
    hide Receive;
    if arrivals != [] {
      var l, a := Listen(tag, arrivals[..|arrivals| - 1]), arrivals[|arrivals| - 1];
      EachHeardOnce(tag, arrivals[..|arrivals| - 1]);
      var out := Receive(l.r, a.p, a.from);
      if a.p.tag == l.r.tag {
        ReceiveConserves(l.r, a.p, a.from);
        Balance(l.heard, l.committed, l.dropped, l.discarded, l.r.wait,
                a.p, out.committed, out.dropped, out.discarded, out.r.wait);
      } else {
        OtherTag(l.r, a.p, a.from);
        assert l.committed + [] == l.committed && l.dropped + [] == l.dropped && l.discarded + [] == l.discarded;
      }
    }
  }

  lemma OtherTag(r: Receiver, p: Packet, from: int)
    requires Valid(r) && p.seqno <= 65535 && p.tag != r.tag
    ensures Receive(r, p, from) == Outcome(r, [], [], [], [])
  {
  }

  // ---------- the wait queue ----------

  /** A waiting queue starts just past the awaited number and lies wholly beyond it. */
  ghost predicate QueueInOrder(r: Receiver) {
    r.wait != [] ==>
      && r.expected != 0
      && r.wait[0].seqno == r.expected + 1
      && forall k :: 0 <= k < |r.wait| ==> r.wait[k].seqno > r.expected
  }

  lemma ReceiveQueue(r: Receiver, p: Packet, from: int)
    requires Valid(r) && p.seqno <= 65535 && QueueInOrder(r)
    ensures var out := Receive(r, p, from);
            QueueInOrder(out.r)
            && out.asked == if r.wait == [] && out.r.wait != [] then [Demand(out.r.expected, out.r.src)] else []
  {
  }

  /** Over any arrivals the queue stays in that shape, and each time it opens exactly one request is
      sent, for the number it waits for. */
  lemma {:induction false} QueueAndRequests(tag: int, arrivals: seq<Arrival>)
    requires Numbered(arrivals)
    ensures var l := Listen(tag, arrivals);
            QueueInOrder(l.r)
            && |l.asked| == Openings(tag, arrivals)
            && (l.r.wait != [] ==> l.asked != [] && l.asked[|l.asked| - 1].number == l.r.expected)
  {
    if arrivals != [] {
      var prefix, a := arrivals[..|arrivals| - 1], arrivals[|arrivals| - 1];
      QueueAndRequests(tag, prefix);
      ReceiveQueue(Listen(tag, prefix).r, a.p, a.from);
      WaitingKeepsExpected(Listen(tag, prefix).r, a.p, a.from);
      hide Receive;
    }
  }

  /** How often the queue went from empty to waiting. */
  function Openings(tag: int, arrivals: seq<Arrival>): nat
    requires Numbered(arrivals)
  {
    if arrivals == [] then 0
    else
      var prefix := arrivals[..|arrivals| - 1];
      Openings(tag, prefix)
      + if Listen(tag, prefix).r.wait == [] && Listen(tag, arrivals).r.wait != [] then 1 else 0
  }

  lemma WaitingKeepsExpected(r: Receiver, p: Packet, from: int)
    requires Valid(r) && p.seqno <= 65535
    ensures r.wait != [] && Receive(r, p, from).r.wait != [] ==> Receive(r, p, from).r.expected == r.expected
  {
    hide After;
  }

  // ---------- where the requests go ----------

  /** Where the last original of the receiver's tag came from; 0 before the first. */
  function LastFrom(tag: int, arrivals: seq<Arrival>): int {
    if arrivals == [] then 0
    else
      var a := arrivals[|arrivals| - 1];
      if a.p.tag == tag && a.p.kind == Original then a.from else LastFrom(tag, arrivals[..|arrivals| - 1])
  }

  lemma ReceiveSource(r: Receiver, p: Packet, from: int)
    requires Valid(r) && p.seqno <= 65535
    ensures
      var out := Receive(r, p, from);
      && out.r.src == (if p.tag == r.tag && p.kind == Original then from else r.src) && out.r.tag == r.tag
      && forall k :: 0 <= k < |out.asked| ==> out.asked[k].to == out.r.src
  {
    hide After;
  }

  /** Over any arrivals the receiver's source is where the last original of its tag came from, and a request goes
      there, be the datagram that raised it a repair or an original. */
  lemma {:induction false} RequestsGoToTheSender(tag: int, arrivals: seq<Arrival>, a: Arrival)
    requires Numbered(arrivals) && Numbered(arrivals + [a])
    ensures Listen(tag, arrivals).r.tag == tag && Listen(tag, arrivals).r.src == LastFrom(tag, arrivals)
    ensures
      var l, l' := Listen(tag, arrivals), Listen(tag, arrivals + [a]);
      && |l.asked| <= |l'.asked| && l'.asked[..|l.asked|] == l.asked
      && forall k :: |l.asked| <= k < |l'.asked| ==> l'.asked[k].to == LastFrom(tag, arrivals + [a])
  {
    if arrivals != [] {
      var n := |arrivals| - 1;
      assert arrivals[..n] + [arrivals[n]] == arrivals;
      RequestsGoToTheSender(tag, arrivals[..n], arrivals[n]);
      ReceiveSource(Listen(tag, arrivals[..n]).r, arrivals[n].p, arrivals[n].from);
    }
    ListenLast(tag, arrivals, a);
    ReceiveSource(Listen(tag, arrivals).r, a.p, a.from);
    hide Receive;
    assert (arrivals + [a])[..|arrivals|] == arrivals;
  }

  // ---------- order ----------

  function LastOriginal(heard: seq<Packet>): int {
    if heard == [] then -1
    else if heard[|heard| - 1].kind == Original then heard[|heard| - 1].seqno
    else LastOriginal(heard[..|heard| - 1])
  }

  function LastNumber(ps: seq<Packet>): int {
    if ps == [] then -1 else ps[|ps| - 1].seqno
  }

  /** Originals arrive increasing, repairs do not run ahead of the awaited number, and there is no
      restart and no wrap. */
  predicate Orderly(l: Log, a: Arrival) {
    && a.p.tag == l.r.tag
    && (if a.p.kind == Original then a.p.seqno > LastOriginal(l.heard) else a.p.seqno <= l.r.expected)
    && !Restarts(l.r, a.p)
    && LastNumber(l.committed) < 65535
  }

  /** The log of a receiver from some moment on. */
  function Since(r: Receiver, arrivals: seq<Arrival>): (l: Log)
    requires Valid(r) && Numbered(arrivals)
    ensures Valid(l.r)
  {
    if arrivals == [] then Log(r, [], [], [], [], [])
    else Take(Since(r, arrivals[..|arrivals| - 1]), arrivals[|arrivals| - 1])
  }

  predicate OrderlyRun(r: Receiver, arrivals: seq<Arrival>)
    requires Valid(r) && Numbered(arrivals)
  {
    arrivals == [] ||
    (OrderlyRun(r, arrivals[..|arrivals| - 1])
     && Orderly(Since(r, arrivals[..|arrivals| - 1]), arrivals[|arrivals| - 1]))
  }

  ghost predicate Increasing(ps: seq<Packet>) {
    forall a, b :: 0 <= a < b < |ps| ==> ps[a].seqno < ps[b].seqno
  }

  ghost predicate InOrder(l: Log, start: nat) {
    && QueueInOrder(l.r)
    && Increasing(l.committed) && Increasing(l.r.wait)
    && LastNumber(l.r.wait) <= LastOriginal(l.heard)
    && (l.committed == [] ==> l.r.expected == start)
    && (l.committed != [] && LastNumber(l.committed) < 65535 ==> l.r.expected == LastNumber(l.committed) + 1)
  }

  /** A datagram at or past the awaited number: what it commits and what it leaves waiting. */
  lemma PlaceInOrder(q: Receiver, p: Packet)
    requires Valid(q) && p.seqno <= 65535 && QueueInOrder(q) && Increasing(q.wait)
    requires p.seqno >= q.expected || q.expected == 0
    requires p.seqno == q.expected || LastNumber(q.wait) < p.seqno
    ensures
      var out := Place(q, p);
      && Increasing(out.committed) && Increasing(out.r.wait)
      && (forall k :: 0 <= k < |out.committed| ==> out.committed[k].seqno >= q.expected)
      && (out.committed != [] ==> LastNumber(out.r.wait) == -1 && out.r.expected == After(LastNumber(out.committed)))
      && (out.committed == [] ==> out.r.expected == q.expected && LastNumber(out.r.wait) == p.seqno)
      && (p.seqno == q.expected || q.expected == 0 ==> out.committed != [])
  {
  }

  /** What an orderly datagram adds lies beyond the last committed one. */
  lemma ReceiveInOrder(r: Receiver, p: Packet, from: int, lastOriginal: int)
    requires Valid(r) && p.seqno <= 65535 && p.tag == r.tag && !Restarts(r, p)
    requires QueueInOrder(r) && Increasing(r.wait) && LastNumber(r.wait) <= lastOriginal
    requires if p.kind == Original then p.seqno > lastOriginal else p.seqno <= r.expected
    ensures
      var out := Receive(r, p, from);
      && Increasing(out.committed) && Increasing(out.r.wait)
      && (forall k :: 0 <= k < |out.committed| ==> out.committed[k].seqno >= r.expected)
      && (out.committed != [] ==> LastNumber(out.r.wait) == -1)
      && (out.committed != [] && LastNumber(out.committed) < 65535 ==> out.r.expected == LastNumber(out.committed) + 1)
      && (out.committed == [] ==> out.r.expected == r.expected)
      && LastNumber(out.r.wait) <= (if p.kind == Original then p.seqno else lastOriginal)
  {
    hide Place;
    var h := Hear(r, p, from);
    if !TooLate(h, p) {
      PlaceInOrder(Adjust(h, p), p);
    }
  }

  lemma IncreasingAppend(a: seq<Packet>, b: seq<Packet>)
    requires Increasing(a) && Increasing(b)
    requires forall k :: 0 <= k < |b| ==> LastNumber(a) < b[k].seqno
    ensures Increasing(a + b)
    ensures LastNumber(a + b) == if b == [] then LastNumber(a) else LastNumber(b)
  {
  }

  lemma TakeInOrder(l: Log, a: Arrival, start: nat)
    requires Valid(l.r) && a.p.seqno <= 65535 && InOrder(l, start) && Orderly(l, a)
    ensures InOrder(Take(l, a), start)
  {
    hide Receive, Increasing, QueueInOrder, After, LastOriginal, LastNumber;
    ReceiveQueue(l.r, a.p, a.from);
    ReceiveInOrder(l.r, a.p, a.from, LastOriginal(l.heard));
    var c := Receive(l.r, a.p, a.from).committed;
    assert c != [] && l.committed != [] && LastNumber(l.committed) < 65535 ==> l.r.expected > LastNumber(l.committed);
    NothingCommitted();
    IncreasingAppend(l.committed, c);
    LastOriginalAppend(l.heard, a.p);
    if c == [] {
      assert l.committed + c == l.committed;
    }
  }

  lemma NothingCommitted()
    ensures LastNumber([]) == -1
  {
  }

  lemma LastOriginalAppend(heard: seq<Packet>, p: Packet)
    ensures LastOriginal(heard + [p]) == if p.kind == Original then p.seqno else LastOriginal(heard)
  {
    assert (heard + [p])[..|heard|] == heard;
  }

  lemma {:induction false} SinceInOrder(r: Receiver, arrivals: seq<Arrival>)
    requires Valid(r) && Numbered(arrivals) && r.wait == [] && OrderlyRun(r, arrivals)
    ensures InOrder(Since(r, arrivals), r.expected)
  {
    if arrivals != [] {
      SinceInOrder(r, arrivals[..|arrivals| - 1]);
      TakeInOrder(Since(r, arrivals[..|arrivals| - 1]), arrivals[|arrivals| - 1], r.expected);
    }
  }

  /** Whatever a datagram commits, nothing waits afterwards; a restart commits its own packet alone. */
  lemma NothingWaitsAfterCommit(r: Receiver, p: Packet, from: int)
    requires Valid(r) && p.seqno <= 65535
    ensures
      var out := Receive(r, p, from);
      && (out.committed != [] ==> out.r.wait == [])
      && (p.tag == r.tag && Restarts(r, p) ==> out.committed == [p])
  {
  }

  lemma ListenLast(tag: int, arrivals: seq<Arrival>, a: Arrival)
    requires Numbered(arrivals) && Numbered(arrivals + [a])
    ensures a.p.seqno <= 65535 && Listen(tag, arrivals + [a]) == Take(Listen(tag, arrivals), a)
  {
    hide Take;
    assert (arrivals + [a])[..|arrivals|] == arrivals && (arrivals + [a])[|arrivals|] == a;
  }

  lemma SinceLast(r: Receiver, arrivals: seq<Arrival>, a: Arrival)
    requires Valid(r) && Numbered(arrivals) && Numbered(arrivals + [a])
    ensures a.p.seqno <= 65535 && Since(r, arrivals + [a]) == Take(Since(r, arrivals), a)
  {
    hide Take;
    assert (arrivals + [a])[..|arrivals|] == arrivals && (arrivals + [a])[|arrivals|] == a;
  }

  /** A run is its first part and what the receiver does since. */
  lemma {:induction false} ListenInParts(tag: int, before: seq<Arrival>, since: seq<Arrival>)
    requires Numbered(before) && Numbered(since) && Numbered(before + since)
    ensures Listen(tag, before + since).r == Since(Listen(tag, before).r, since).r
    ensures Listen(tag, before + since).committed
            == Listen(tag, before).committed + Since(Listen(tag, before).r, since).committed
    decreases |since|
  {
    hide Listen, Take, Valid;
    if since == [] {
      assert before + since == before;
    } else {
      hide Since;
      var init, last := since[..|since| - 1], since[|since| - 1];
      assert since == init + [last] && before + since == (before + init) + [last];
      ListenInParts(tag, before, init);
      var l, m := Listen(tag, before + init), Since(Listen(tag, before).r, init);
      ListenLast(tag, before + init, last);
      SinceLast(Listen(tag, before).r, init, last);
      TakeAlike(l, m, last);
      assert Listen(tag, before).committed + m.committed + Receive(l.r, last.p, last.from).committed
        == Listen(tag, before).committed + (m.committed + Receive(l.r, last.p, last.from).committed);
    }
  }

  /** What a datagram does depends on the receiver alone. */
  lemma TakeAlike(l: Log, m: Log, a: Arrival)
    requires Valid(l.r) && l.r == m.r && a.p.seqno <= 65535
    ensures Take(l, a).r == Take(m, a).r == Receive(l.r, a.p, a.from).r
    ensures Take(l, a).committed == l.committed + Receive(l.r, a.p, a.from).committed
    ensures Take(m, a).committed == m.committed + Receive(l.r, a.p, a.from).committed
  {
    hide Receive;
  }

  /** Between restarts and wraps the committed numbers strictly increase: from any moment of any run
      when nothing waits, as long as what arrives is orderly. */
  lemma CommittedIncrease(tag: int, before: seq<Arrival>, since: seq<Arrival>)
    requires Numbered(before) && Numbered(since) && Numbered(before + since)
    requires Listen(tag, before).r.wait == [] && OrderlyRun(Listen(tag, before).r, since)
    ensures
      var was, now := Listen(tag, before).committed, Listen(tag, before + since).committed;
      |was| <= |now| && now[..|was|] == was && Increasing(now[|was|..])
  {
    ListenInParts(tag, before, since);
    SinceInOrder(Listen(tag, before).r, since);
    hide Listen, Since, Increasing;
    var was, now := Listen(tag, before).committed, Listen(tag, before + since).committed;
    assert now[|was|..] == Since(Listen(tag, before).r, since).committed;
  }

  /** Such a moment comes with every datagram that commits something, one that restarts or brings the wrap
      included: whatever is committed after it increases again, and a restart's own packet comes first. */
  lemma IncreaseAfterCommit(tag: int, before: seq<Arrival>, a: Arrival, since: seq<Arrival>)
    requires Numbered(before) && Numbered(before + [a]) && Numbered(since) && Numbered(before + [a] + since)
    requires
      var r := Listen(tag, before).r;
      a.p.seqno <= 65535 && Receive(r, a.p, a.from).committed != []
    requires OrderlyRun(Listen(tag, before + [a]).r, since)
    ensures
      var r, was := Listen(tag, before).r, Listen(tag, before).committed;
      var now := Listen(tag, before + [a] + since).committed;
      var c := Receive(r, a.p, a.from).committed;
      && |was| + |c| <= |now| && now[..|was| + |c|] == was + c && Increasing(now[|was| + |c|..])
      && (a.p.tag == r.tag && Restarts(r, a.p) ==> c == [a.p])
  {
    hide Listen, OrderlyRun, Increasing, Numbered, Receive, Take, Valid, Restarts;
    NothingWaitsAfterCommit(Listen(tag, before).r, a.p, a.from);
    ListenLast(tag, before, a);
    TakeAlike(Listen(tag, before), Listen(tag, before), a);
    CommittedIncrease(tag, before + [a], since);
  }
}
