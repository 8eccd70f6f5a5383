/** client/rbudp.c, sending side: numbering, the repair cache and the answers to requests. */
module RbudpSender {
  import opened RbudpPackets

  const REP_SIZE := 32
  const ZERO := Packet(0, Original, 0, [], 0)  // a cache slot nobody has written

  datatype Sender = Sender(counter: nat, cache: seq<Packet>, repSeq: seq<int>, repCount: seq<int>)

  ghost predicate Valid(s: Sender) {
    && s.counter <= 65535
    && |s.cache| == |s.repSeq| == |s.repCount| == REP_SIZE
    && forall k :: 0 <= k < REP_SIZE ==> s.repCount[k] >= 0
  }

  function Fresh(): Sender {
    Sender(0, seq(REP_SIZE, _ => ZERO), seq(REP_SIZE, _ => 0), seq(REP_SIZE, _ => 0))
  }

  /** The 16-bit counter skips 0 when it wraps. */
  function NextSeq(s: nat): (r: nat)
    requires s <= 65535
    ensures 1 <= r <= 65535
  {
    if (s + 1) % 65536 == 0 then 1 else s + 1
  }

  /** The datagram that rbudp_broadcast sends, and the state it leaves. */
  function Broadcast(s: Sender, tag: int, data: seq<int>, extra: int): (Sender, Packet)
    requires Valid(s)
  {
    var n := NextSeq(s.counter);
    var p := Packet(tag, Original, n, data, extra);
    (s.(counter := n, cache := s.cache[n % REP_SIZE := AsRepair(p)]), p)
  }

  datatype Reply = Nothing | Unicast(p: Packet) | Rebroadcast(p: Packet)

  /** One request through run_retransmit. */
  function Answer(s: Sender, req: nat): (Sender, Reply)
    requires Valid(s) && req <= 65535
  {
    var k := req % REP_SIZE;
    var p := s.cache[k];
    if p.seqno != req then (s, Nothing)
    else
      var count := if s.repSeq[k] != req then 0 else s.repCount[k];
      (s.(repSeq := s.repSeq[k := req], repCount := s.repCount[k := count + 1]),
       if count < 8 then Unicast(p) else if count < 20 then Rebroadcast(p) else Nothing)
  }

  /** The routines over the static arrays of the source. */
  class SenderBuffers {
    var counter: nat
    const repBufs: array<Packet>
    const repSeq: array<int>
    const repCount: array<int>

    ghost function Value(): Sender
      reads this, repBufs, repSeq, repCount
    {
      Sender(counter, repBufs[..], repSeq[..], repCount[..])
    }

    ghost predicate Ok()
      reads this, repBufs, repSeq, repCount
    {
      Valid(Value()) && repSeq != repCount
    }

    constructor ()
      ensures Ok() && Value() == Fresh() && fresh(repBufs) && fresh(repSeq) && fresh(repCount)
    {
      counter := 0;
      repBufs := new Packet[REP_SIZE](_ => ZERO);
      repSeq := new int[REP_SIZE](_ => 0);
      repCount := new int[REP_SIZE](_ => 0);
    }

    /** rbudp_broadcast with a send that succeeds */
    method Send(tag: int, data: seq<int>, extra: int) returns (sent: Packet)
      requires Ok()
      modifies this, repBufs
      ensures Ok() && (Value(), sent) == Broadcast(old(Value()), tag, data, extra)
      ensures sent == Packet(tag, Original, NextSeq(old(counter)), data, extra)
      ensures repBufs[..] == old(repBufs[..])[counter % REP_SIZE := AsRepair(sent)]
    {
      counter := (counter + 1) % 65536;
      if counter == 0 {
        counter := 1;
      }
      var p := Packet(tag, Original, counter, data, extra);
      repBufs[counter % REP_SIZE] := p;
      sent := p;
      repBufs[counter % REP_SIZE] := repBufs[counter % REP_SIZE].(kind := Repair);
      assert repBufs[..] == old(repBufs[..])[counter % REP_SIZE := AsRepair(p)];
    }

    /** the body of run_retransmit for one received datagram */
    method Retransmit(req: Packet) returns (reply: Reply)
      requires Ok() && req.seqno <= 65535
      modifies repSeq, repCount
      ensures Ok()
      ensures req.kind != Request ==> Value() == old(Value()) && reply == Nothing
      ensures req.kind == Request ==> (Value(), reply) == Answer(old(Value()), req.seqno)
    {
      reply := Nothing;
      if req.kind == Request {
        var k := req.seqno % REP_SIZE;
        var p := repBufs[k];
        if p.seqno == req.seqno {
          if repSeq[k] != req.seqno {
            repSeq[k] := req.seqno;
            repCount[k] := 0;
          }
          if repCount[k] < 8 {
            reply := Unicast(p);
          } else if repCount[k] < 20 {
            reply := Rebroadcast(p);
          }
          repCount[k] := repCount[k] + 1;
          assert repSeq[..] == old(repSeq[..])[k := req.seqno];
          assert repCount[..] == old(repCount[..])[k := repCount[k]];
        }
      }
    }
  }

  // ---------- which broadcast a cache slot holds ----------

  /** The number of the j-th broadcast since the start. */
  function SeqAt(j: nat): (r: nat)
    ensures 1 <= r <= 65535
  {
    j % 65535 + 1
  }

  lemma SeqStep(j: nat)
    ensures SeqAt(j + 1) == if SeqAt(j) == 65535 then 1 else SeqAt(j) + 1
  {
  }

  /** Fewer than 65535 broadcasts apart, numbers differ. */
  lemma SeqInjective(i: nat, j: nat)
    requires i <= j < i + 65535
    ensures SeqAt(i) == SeqAt(j) <==> i == j
  {
  }

  function SlotOf(j: nat): nat {
    SeqAt(j) % REP_SIZE
  }

  /** How many broadcasts later the slot of this number is filled again: 32, or 31 across the wrap
      because 0 is skipped; 65504 lives longer, since slot 0 is passed over once. */
  function Lifetime(number: nat): nat {
    if number == 65504 then 63 else if number > 65504 then 31 else 32
  }

  lemma SlotReuse(j: nat, d: nat)
    requires 0 < d <= Lifetime(SeqAt(j))
    ensures SlotOf(j + d) == SlotOf(j) <==> d == Lifetime(SeqAt(j))
  {
    assert SeqAt(j + d) == if SeqAt(j) + d > 65535 then SeqAt(j) + d - 65535 else SeqAt(j) + d;
  }

  /** Index of the last of the first n broadcasts that went to the slot, -1 if none did. */
  function LastIn(n: nat, slot: nat): (r: int)
    ensures -1 <= r < n
    ensures r >= 0 ==> SlotOf(r) == slot
    ensures forall j :: r < j < n ==> SlotOf(j) != slot
  {
    if n == 0 then -1 else if SlotOf(n - 1) == slot then n - 1 else LastIn(n - 1, slot)
  }

  /** Broadcast j is still in the cache after the broadcasts up to n exactly during its lifetime. */
  lemma StillCached(n: nat, j: nat)
    requires j < n
    ensures LastIn(n, SlotOf(j)) == j <==> n - 1 - j < Lifetime(SeqAt(j))
  {
    hide SlotOf;
    var last := LastIn(n, SlotOf(j));
    if j < last && last - j < Lifetime(SeqAt(j)) {
      SlotReuse(j, last - j);
    }
    if n - 1 - j >= Lifetime(SeqAt(j)) {
      SlotReuse(j, Lifetime(SeqAt(j)));
    }
  }

  // ---------- any run of broadcasts and requests ----------

  datatype Op = Say(tag: int, data: seq<int>, extra: int) | Ask(req: nat)

  /** A run, with counts of the answers each slot gave since it was last filled, and the counter that its
      number had then. */
  datatype History = History(
    s: Sender, sent: seq<Packet>, replies: seq<Reply>, unicasts: seq<nat>, repairs: seq<nat>, base: seq<nat>)

  predicate Wellformed(ops: seq<Op>) {
    forall k :: 0 <= k < |ops| && ops[k].Ask? ==> ops[k].req <= 65535
  }

  ghost predicate Sound(h: History) {
    && Valid(h.s)
    && h.s.counter == (if |h.sent| == 0 then 0 else SeqAt(|h.sent| - 1))
    && (forall j :: 0 <= j < |h.sent| ==> h.sent[j].seqno == SeqAt(j) && h.sent[j].kind == Original)
    && (forall k :: 0 <= k < REP_SIZE ==> h.s.cache[k] == CacheEntry(h.sent, k))
    && |h.unicasts| == |h.repairs| == |h.base| == REP_SIZE
    && (forall k :: 0 <= k < REP_SIZE ==> Counted(h, k))
  }

  function CacheEntry(sent: seq<Packet>, k: nat): Packet {
    var j := LastIn(|sent|, k);
    if j < 0 then ZERO else AsRepair(sent[j])
  }

  function Min(a: nat, b: nat): nat {
    if a < b then a else b
  }

  /** rep_count of slot k, if it is that of the number the slot holds. */
  function CounterOf(s: Sender, k: nat): nat
    requires |s.cache| == |s.repSeq| == |s.repCount| == REP_SIZE && k < REP_SIZE && s.repCount[k] >= 0
  {
    if s.repSeq[k] == s.cache[k].seqno then s.repCount[k] else 0
  }

  /** The counter starts at the base; what it passes below 8 is answered to the asker, below 20 to all. */
  ghost predicate Counted(h: History, k: nat)
    requires Valid(h.s) && |h.unicasts| == |h.repairs| == |h.base| == REP_SIZE && k < REP_SIZE
  {
    var c := CounterOf(h.s, k);
    && h.base[k] <= c
    && h.unicasts[k] == Min(c, 8) - Min(h.base[k], 8)
    && h.repairs[k] == Min(c, 20) - Min(h.base[k], 20)
  }

  function Start(): History {
    History(Fresh(), [], [], seq(REP_SIZE, _ => 0), seq(REP_SIZE, _ => 0), seq(REP_SIZE, _ => 0))
  }

  ghost function Do(h: History, op: Op): History
    requires Sound(h) && (op.Ask? ==> op.req <= 65535)
  {
    match op
    case Say(tag, data, extra) =>
      var (s, p) := Broadcast(h.s, tag, data, extra);
      var k := p.seqno % REP_SIZE;
      h.(s := s, sent := h.sent + [p], unicasts := h.unicasts[k := 0], repairs := h.repairs[k := 0],
         base := h.base[k := CounterOf(s, k)])
    case Ask(req) =>
      var (s, reply) := Answer(h.s, req);
      var k := req % REP_SIZE;
      h.(s := s, replies := h.replies + [reply],
         unicasts := if reply.Unicast? then h.unicasts[k := h.unicasts[k] + 1] else h.unicasts,
         repairs := if reply.Nothing? then h.repairs else h.repairs[k := h.repairs[k] + 1])
  }

  lemma SayKeepsSound(h: History, tag: int, data: seq<int>, extra: int)
    requires Sound(h)
    ensures Sound(Do(h, Say(tag, data, extra)))
  {
    var h' := Do(h, Say(tag, data, extra));
    var n := |h.sent|;
    assert h'.s.counter == SeqAt(n);
    forall k | 0 <= k < REP_SIZE
      ensures h'.s.cache[k] == CacheEntry(h'.sent, k) && Counted(h', k)
    {
      assert h.s.cache[k] == CacheEntry(h.sent, k) && Counted(h, k);
    }
  }

  lemma AskKeepsSound(h: History, req: nat)
    requires Sound(h) && req <= 65535
    ensures Sound(Do(h, Ask(req)))
  {
    var h' := Do(h, Ask(req));
    forall k | 0 <= k < REP_SIZE
      ensures h'.s.cache[k] == CacheEntry(h'.sent, k) && Counted(h', k)
    {
      assert h.s.cache[k] == CacheEntry(h.sent, k) && Counted(h, k);
    }
  }

  ghost function After(ops: seq<Op>): (h: History)
    requires Wellformed(ops)
    ensures Sound(h)
  {
    if ops == [] then
      StartIsSound();
      Start()
    else
      var h := After(ops[..|ops| - 1]);
      var op := ops[|ops| - 1];
      match op {
        case Say(tag, data, extra) => SayKeepsSound(h, tag, data, extra); Do(h, op)
        case Ask(req) => AskKeepsSound(h, req); Do(h, op)
      }
  }

  lemma StartIsSound()
    ensures Sound(Start())
  {
    forall k | 0 <= k < REP_SIZE
      ensures Start().s.cache[k] == CacheEntry([], k) && Counted(Start(), k)
    {
    }
  }

  /** A broadcast's slot holds it, unchanged, exactly while fewer broadcasts followed it than its
      lifetime: always for the last 31, also across the wrap. During that time a request for its number
      is answered with it exactly while the counter kept under that number is below 20. */
  lemma LastBroadcastsRetrievable(ops: seq<Op>, j: nat)
    requires Wellformed(ops) && j < |After(ops).sent|
    ensures 31 <= Lifetime(SeqAt(j))
    ensures
      var h, k := After(ops), SlotOf(j);
      && (LastIn(|h.sent|, k) == j <==> |h.sent| - 1 - j < Lifetime(SeqAt(j)))
      && (|h.sent| - 1 - j < Lifetime(SeqAt(j)) ==>
            && h.s.cache[k] == AsRepair(h.sent[j])
            && var reply := Answer(h.s, SeqAt(j)).1;
               && (!reply.Nothing? <==> h.s.repSeq[k] != SeqAt(j) || h.s.repCount[k] < 20)
               && (!reply.Nothing? ==> reply.p == AsRepair(h.sent[j])))
  {
    var h := After(ops);
    StillCached(|h.sent|, j);
    assert h.s.cache[SlotOf(j)] == CacheEntry(h.sent, SlotOf(j));
  }

  lemma DoKeepsCounter(h: History, op: Op, k: nat)
    requires Sound(h) && k < REP_SIZE && (op.Ask? ==> op.req <= 65535 && op.req % REP_SIZE != k)
    ensures Do(h, op).s.repSeq[k] == h.s.repSeq[k] && Do(h, op).s.repCount[k] == h.s.repCount[k]
  {
  }

  lemma AfterLast(ops: seq<Op>, op: Op)
    requires Wellformed(ops) && Wellformed(ops + [op])
    ensures (op.Ask? ==> op.req <= 65535) && After(ops + [op]) == Do(After(ops), op)
  {
    assert (ops + [op])[|ops|] == op && (ops + [op])[..|ops|] == ops;
    hide Sound, Do;
  }

  /** Requests that do not reach slot k, and broadcasts, leave its counter. */
  lemma {:induction false} CounterStays(ops: seq<Op>, more: seq<Op>, k: nat)
    requires Wellformed(ops) && Wellformed(more) && Wellformed(ops + more) && k < REP_SIZE
    requires forall i :: 0 <= i < |more| && more[i].Ask? ==> more[i].req % REP_SIZE != k
    ensures After(ops + more).s.repSeq[k] == After(ops).s.repSeq[k]
    ensures After(ops + more).s.repCount[k] == After(ops).s.repCount[k]
    decreases |more|
  {
    if more == [] {
      assert ops + more == ops;
    } else {
      var init, op := more[..|more| - 1], more[|more| - 1];
      assert ops + more == (ops + init) + [op];
      CounterStays(ops, init, k);
      AfterLast(ops + init, op);
      DoKeepsCounter(After(ops + init), op, k);
      hide After, Sound, Do;
    }
  }

  /** The counter survives the wrap: a number that was repaired 20 times is refused at its first request
      when it comes round again, 65535 broadcasts later, though the new packet is in the cache. */
  lemma StaleCounterRefuses(ops: seq<Op>, more: seq<Op>, j: nat)
    requires Wellformed(ops) && Wellformed(more) && Wellformed(ops + more) && j < |After(ops).sent|
    requires forall i :: 0 <= i < |more| && more[i].Ask? ==> more[i].req % REP_SIZE != SlotOf(j)
    requires After(ops).s.repSeq[SlotOf(j)] == SeqAt(j) && After(ops).s.repCount[SlotOf(j)] >= 20
    requires 0 <= |After(ops + more).sent| - 1 - (j + 65535) < Lifetime(SeqAt(j))
    ensures
      var h := After(ops + more);
      && h.s.cache[SlotOf(j)] == AsRepair(h.sent[j + 65535]) && h.sent[j + 65535].seqno == SeqAt(j)
      && Answer(h.s, SeqAt(j)).1 == Nothing
  {
    hide After, LastIn, Answer, CacheEntry, Counted;
    var h, again := After(ops + more), j + 65535;
    SameNumberAgain(j);
    assert h.sent[again].seqno == SeqAt(again);
    hide Sound, SeqAt, SlotOf, Lifetime;
    CounterStays(ops, more, SlotOf(j));
    LastBroadcastsRetrievable(ops + more, again);
  }

  lemma SameNumberAgain(j: nat)
    ensures SeqAt(j + 65535) == SeqAt(j) && SlotOf(j + 65535) == SlotOf(j)
  {
  }

  function Asks(req: nat, n: nat): seq<Op> {
    seq(n, _ => Ask(req))
  }

  function Says(p: Op, n: nat): seq<Op> {
    seq(n, _ => p)
  }

  lemma AskCounts(h: History, req: nat)
    requires Sound(h) && req <= 65535 && h.s.cache[req % REP_SIZE].seqno == req
    ensures
      var h', k := Do(h, Ask(req)), req % REP_SIZE;
      && h'.sent == h.sent && h'.s.cache == h.s.cache && h'.s.repSeq[k] == req
      && h'.s.repCount[k] == (if h.s.repSeq[k] == req then h.s.repCount[k] else 0) + 1
  {
  }

  /** Requests for a cached number count up. */
  lemma {:induction false} AsksCount(ops: seq<Op>, req: nat, n: nat)
    requires Wellformed(ops) && Wellformed(ops + Asks(req, n)) && req <= 65535
    requires After(ops).s.cache[req % REP_SIZE].seqno == req && After(ops).s.repSeq[req % REP_SIZE] != req
    ensures After(ops + Asks(req, n)).sent == After(ops).sent
    ensures After(ops + Asks(req, n)).s.cache == After(ops).s.cache
    ensures n > 0 ==> After(ops + Asks(req, n)).s.repSeq[req % REP_SIZE] == req
                      && After(ops + Asks(req, n)).s.repCount[req % REP_SIZE] == n
    ensures n == 0 ==> After(ops + Asks(req, n)) == After(ops)
  {
    if n == 0 {
      assert ops + Asks(req, n) == ops;
    } else {
      assert ops + Asks(req, n) == (ops + Asks(req, n - 1)) + [Ask(req)];
      AsksCount(ops, req, n - 1);
      AfterLast(ops + Asks(req, n - 1), Ask(req));
      AskCounts(After(ops + Asks(req, n - 1)), req);
      hide After, Sound, Wellformed, Do;
    }
  }

  lemma {:induction false} SaysSend(ops: seq<Op>, p: Op, n: nat)
    requires p.Say? && Wellformed(ops) && Wellformed(ops + Says(p, n))
    ensures |After(ops + Says(p, n)).sent| == |After(ops).sent| + n
  {
    if n == 0 {
      assert ops + Says(p, n) == ops;
    } else {
      assert ops + Says(p, n) == (ops + Says(p, n - 1)) + [p];
      SaysSend(ops, p, n - 1);
      AfterLast(ops + Says(p, n - 1), p);
      hide After, Sound, Wellformed;
    }
  }

  /** A run in which that happens: number 1 is broadcast, asked for 20 times, and broadcast again after
      65534 others. */
  lemma FreshPacketRefused(p: Op)
    requires p.Say?
    ensures
      var ops := [p] + Asks(1, 20) + Says(p, 65535);
      Wellformed(ops) &&
      var h := After(ops);
      |h.sent| == 65536 && h.sent[65535].seqno == 1 && h.s.cache[1] == AsRepair(h.sent[65535])
      && Answer(h.s, 1).1 == Nothing
  {
    var ops := [p] + Asks(1, 20);
    FirstSaid(p);
    assert SlotOf(0) == 1 && SeqAt(0) == 1 && Lifetime(1) == 32;
    hide After, Sound, Do, SeqAt, SlotOf, Lifetime, LastIn;
    AsksCount([p], 1, 20);
    SaysSend(ops, p, 65535);
    StaleCounterRefuses(ops, Says(p, 65535), 0);
    SameNumberAgain(0);
  }

  lemma FirstSaid(p: Op)
    requires p.Say?
    ensures |After([p]).sent| == 1 && After([p]).s.cache[1].seqno == 1 && After([p]).s.repSeq[1] == 0
  {
    var start: seq<Op> := [];
    AfterLast(start, p);
    assert start + [p] == [p];
  }

  /** A reply carries the requested number, and it is the repair of the last broadcast in that slot
      unless the slot was never filled, which only a request for 0 can reach. */
  lemma AnsweredBySameNumber(ops: seq<Op>, req: nat)
    requires Wellformed(ops) && req <= 65535
    requires !Answer(After(ops).s, req).1.Nothing?
    ensures var h := After(ops); var p := Answer(h.s, req).1.p;
            p.seqno == req
            && (req != 0 ==> var j := LastIn(|h.sent|, req % REP_SIZE);
                             j >= 0 && SeqAt(j) == req && p == AsRepair(h.sent[j]))
            && (req == 0 ==> p == ZERO && |h.sent| <= 31)
  {
    hide After, Sound, Answer, SeqAt, LastIn;
    AnswerOf(After(ops), req);
  }

  lemma AnswerOf(h: History, req: nat)
    requires Sound(h) && req <= 65535
    ensures Valid(h.s)
    ensures
      var reply, j := Answer(h.s, req).1, LastIn(|h.sent|, req % REP_SIZE);
      reply.Nothing? || (
        && reply.p.seqno == req
        && (req != 0 ==> j >= 0 && SeqAt(j) == req && reply.p == AsRepair(h.sent[j]))
        && (req == 0 ==> reply.p == ZERO && |h.sent| <= 31))
  {
    hide Sound, SeqAt, LastIn, SlotOf;
    ValidSender(h);
    AnswerFromCache(h.s, req);
    hide Answer;
    CacheOf(h, req % REP_SIZE);
    ZeroUnfilled(|h.sent|);
  }

  lemma ValidSender(h: History)
    requires Sound(h)
    ensures Valid(h.s)
  {
    hide Counted, CacheEntry;
  }

  lemma AnswerFromCache(s: Sender, req: nat)
    requires Valid(s) && req <= 65535
    ensures
      var reply := Answer(s, req).1;
      reply.Nothing? || (reply.p == s.cache[req % REP_SIZE] && reply.p.seqno == req)
  {
  }

  /** What slot k holds, by the broadcasts. */
  lemma CacheOf(h: History, k: nat)
    requires Sound(h) && k < REP_SIZE
    ensures
      var j := LastIn(|h.sent|, k);
      && Valid(h.s) && (forall i :: 0 <= i < |h.sent| ==> h.sent[i].seqno == SeqAt(i))
      && h.s.cache[k] == if j < 0 then ZERO else AsRepair(h.sent[j])
  {
    hide Counted, LastIn, SeqAt;
    assert h.s.cache[k] == CacheEntry(h.sent, k);
  }

  /** A request for 0, a number nobody broadcasts, is answered exactly while slot 0 was never filled,
      that is before the 32nd broadcast, and the counter for it is below 20. */
  lemma RequestForZeroAnswered(ops: seq<Op>)
    requires Wellformed(ops)
    ensures
      var h := After(ops);
      !Answer(h.s, 0).1.Nothing? <==> |h.sent| <= 31 && (h.s.repSeq[0] != 0 || h.s.repCount[0] < 20)
  {
    var h := After(ops);
    assert h.s.cache[0] == CacheEntry(h.sent, 0);
    assert SlotOf(31) == 0;
    ZeroUnfilled(|h.sent|);
  }

  lemma {:induction false} ZeroUnfilled(n: nat)
    ensures LastIn(n, 0) < 0 <==> n <= 31
  {
    assert SlotOf(31) == 0;
    if n > 0 {
      ZeroUnfilled(n - 1);
    }
  }

  /** Since a slot was last filled it has sent at most 8 unicast repairs and 20 in all. */
  lemma RepairsLimited(ops: seq<Op>, k: nat)
    requires Wellformed(ops) && k < REP_SIZE
    ensures After(ops).unicasts[k] <= 8 && After(ops).repairs[k] <= 20
  {
    assert Counted(After(ops), k);
  }

  /** How often the number that slot k holds was asked for since the slot was last filled. */
  ghost function AskedSince(ops: seq<Op>, k: nat): nat
    requires Wellformed(ops) && k < REP_SIZE
  {
    if ops == [] then 0
    else
      var before := ops[..|ops| - 1];
      match ops[|ops| - 1]
      case Say(_, _, _) => if SlotOf(|After(before).sent|) == k then 0 else AskedSince(before, k)
      case Ask(req) =>
        AskedSince(before, k) + if req == After(before).s.cache[k].seqno && req % REP_SIZE == k then 1 else 0
  }

  /** The first repairs of a filling go to the asker alone, those between the 8th and the 20th to everybody,
      and no more: counted from the base, which is where the number's counter stood. */
  lemma {:induction false} RepairsExactly(ops: seq<Op>, k: nat)
    requires Wellformed(ops) && k < REP_SIZE
    ensures
      var h := After(ops);
      var a := h.base[k] + AskedSince(ops, k);
      && h.unicasts[k] == Min(a, 8) - Min(h.base[k], 8)
      && h.repairs[k] == Min(a, 20) - Min(h.base[k], 20)
  {
    CounterIsAsked(ops, k);
    assert Counted(After(ops), k);
    hide After, AskedSince;
  }

  lemma {:induction false} CounterIsAsked(ops: seq<Op>, k: nat)
    requires Wellformed(ops) && k < REP_SIZE
    ensures CounterOf(After(ops).s, k) == After(ops).base[k] + AskedSince(ops, k)
  {
    if ops != [] {
      var before, op := ops[..|ops| - 1], ops[|ops| - 1];
      CounterIsAsked(before, k);
      assert ops == before + [op];
      AfterLast(before, op);
      CounterStep(After(before), op, k);
    }
  }

  lemma NumberIsNext(h: History)
    requires Sound(h)
    ensures NextSeq(h.s.counter) == SeqAt(|h.sent|)
  {
    assert SeqAt(0) == 1;
    hide Counted, CacheEntry, SeqAt;
    if h.sent != [] {
      SeqStep(|h.sent| - 1);
    }
  }

  lemma SayCounter(h: History, op: Op, k: nat)
    requires Sound(h) && k < REP_SIZE && op.Say?
    ensures
      var t := Do(h, op);
      && (SlotOf(|h.sent|) == k ==> CounterOf(t.s, k) == t.base[k])
      && (SlotOf(|h.sent|) != k ==> CounterOf(t.s, k) == CounterOf(h.s, k) && t.base[k] == h.base[k])
  {
    NumberIsNext(h);
    hide Counted, CacheEntry, SeqAt, NextSeq, LastIn;
  }

  lemma AskCounter(h: History, req: nat, k: nat)
    requires Sound(h) && k < REP_SIZE && req <= 65535
    ensures
      var t := Do(h, Ask(req));
      && t.base[k] == h.base[k]
      && CounterOf(t.s, k) == CounterOf(h.s, k)
           + if req == h.s.cache[k].seqno && req % REP_SIZE == k then 1 else 0
  {
    hide Counted, CacheEntry, LastIn, SeqAt;
  }

  lemma CounterStep(h: History, op: Op, k: nat)
    requires Sound(h) && k < REP_SIZE && (op.Ask? ==> op.req <= 65535)
    ensures
      var t := Do(h, op);
      && (op.Say? && SlotOf(|h.sent|) == k ==> CounterOf(t.s, k) == t.base[k])
      && (op.Say? && SlotOf(|h.sent|) != k ==> CounterOf(t.s, k) == CounterOf(h.s, k) && t.base[k] == h.base[k])
      && (op.Ask? ==>
            t.base[k] == h.base[k]
            && CounterOf(t.s, k) == CounterOf(h.s, k)
               + if op.req == h.s.cache[k].seqno && op.req % REP_SIZE == k then 1 else 0)
  {
    match op
    case Say(_, _, _) => SayCounter(h, op, k);
    case Ask(req) => AskCounter(h, req, k);
  }

  /** 0, or the number of one of the first n broadcasts. */
  ghost predicate Broadcasted(number: int, n: nat) {
    number == 0 || exists j :: 0 <= j < n && SeqAt(j) == number
  }

  lemma BroadcastedStep(h: History, op: Op, k: nat)
    requires Sound(h) && k < REP_SIZE && (op.Ask? ==> op.req <= 65535) && Broadcasted(h.s.repSeq[k], |h.sent|)
    ensures Broadcasted(Do(h, op).s.repSeq[k], |Do(h, op).sent|)
  {
    hide Counted, SeqAt;
    assert h.s.cache[k] == CacheEntry(h.sent, k);
    if h.s.repSeq[k] != 0 {
      var j :| 0 <= j < |h.sent| && SeqAt(j) == h.s.repSeq[k];
      assert j < |Do(h, op).sent|;
    }
  }

  /** A counter is kept for 0 or for a number that was broadcast. */
  lemma {:induction false} CountedNumbers(ops: seq<Op>, k: nat)
    requires Wellformed(ops) && k < REP_SIZE
    ensures Broadcasted(After(ops).s.repSeq[k], |After(ops).sent|)
  {
    if ops != [] {
      var before, op := ops[..|ops| - 1], ops[|ops| - 1];
      CountedNumbers(before, k);
      assert ops == before + [op];
      AfterLast(before, op);
      hide After, Broadcasted, Sound, Do;
      BroadcastedStep(After(before), op, k);
    }
  }

  /** Before a number comes round again every filling starts at 0: the first 8 repairs go to the asker, the
      next 12 to everybody, and no more. */
  lemma {:induction false} FirstCycleStartsAtZero(ops: seq<Op>, k: nat)
    requires Wellformed(ops) && k < REP_SIZE && |After(ops).sent| <= 65535
    ensures After(ops).base[k] == 0
  {
    if ops != [] {
      var before, op := ops[..|ops| - 1], ops[|ops| - 1];
      assert ops == before + [op];
      AfterLast(before, op);
      CountedNumbers(before, k);
      var h := After(before);
      hide After;
      SentGrows(h, op);
      FirstCycleStartsAtZero(before, k);
      CounterStep(h, op, k);
      if op.Say? && SlotOf(|h.sent|) == k {
        NewNumber(h, op, k);
      }
    }
  }

  lemma SentGrows(h: History, op: Op)
    requires Sound(h) && (op.Ask? ==> op.req <= 65535)
    ensures |Do(h, op).sent| == |h.sent| + if op.Say? then 1 else 0
  {
  }

  lemma NewNumber(h: History, op: Op, k: nat)
    requires Sound(h) && op.Say? && |h.sent| < 65535 && k < REP_SIZE && SlotOf(|h.sent|) == k
    requires Broadcasted(h.s.repSeq[k], |h.sent|)
    ensures CounterOf(Do(h, op).s, k) == 0
  {
    NumberIsNext(h);
    if h.s.repSeq[k] != 0 {
      var j :| 0 <= j < |h.sent| && SeqAt(j) == h.s.repSeq[k];
      SeqInjective(j, |h.sent|);
    }
    hide Counted, CacheEntry, LastIn, SeqAt, NextSeq;
  }

  // ---------- what was said ----------

  /** The broadcasts the caller asked for, in order. */
  function Said(ops: seq<Op>): (r: seq<Op>)
    ensures forall k :: 0 <= k < |r| ==> r[k].Say?
  {
    if ops == [] then []
    else Said(ops[..|ops| - 1]) + if ops[|ops| - 1].Say? then [ops[|ops| - 1]] else []
  }

  /** The packets carry, one by one, what was said, under the numbers in order. */
  ghost predicate Carries(sent: seq<Packet>, says: seq<Op>) {
    && |sent| == |says|
    && forall j :: 0 <= j < |says| ==>
         says[j].Say? && sent[j] == Packet(says[j].tag, Original, SeqAt(j), says[j].data, says[j].extra)
  }

  lemma SayCarries(h: History, says: seq<Op>, op: Op)
    requires Sound(h) && Carries(h.sent, says) && op.Say?
    ensures Carries(Do(h, op).sent, says + [op])
  {
    NumberIsNext(h);
    hide Counted, CacheEntry, SeqAt, NextSeq, LastIn;
  }

  lemma AskSendsNothing(h: History, req: nat)
    requires Sound(h) && req <= 65535
    ensures Do(h, Ask(req)).sent == h.sent
  {
  }

  /** Over any run the datagrams sent are what the caller said, each with its tag, data and extra word. */
  lemma {:induction false} SentIsSaid(ops: seq<Op>)
    requires Wellformed(ops)
    ensures Carries(After(ops).sent, Said(ops))
  {
    if ops != [] {
      var before, op := ops[..|ops| - 1], ops[|ops| - 1];
      SentIsSaid(before);
      assert ops == before + [op];
      AfterLast(before, op);
      hide After, Sound, Do;
      if op.Say? {
        SayCarries(After(before), Said(before), op);
      } else {
        AskSendsNothing(After(before), op.req);
        assert Said(before) + [] == Said(before);
      }
    }
  }

  /** A repair, too, carries what was said under the number asked for. */
  lemma RepairIsSaid(ops: seq<Op>, req: nat)
    requires Wellformed(ops) && 0 < req <= 65535 && !Answer(After(ops).s, req).1.Nothing?
    ensures
      var p := Answer(After(ops).s, req).1.p;
      exists j :: 0 <= j < |Said(ops)| && SeqAt(j) == req
                  && p == Packet(Said(ops)[j].tag, Repair, req, Said(ops)[j].data, Said(ops)[j].extra)
  {
    SentIsSaid(ops);
    AnsweredBySameNumber(ops, req);
    var j := LastIn(|After(ops).sent|, req % REP_SIZE);
    hide After, Answer, Said;
    assert 0 <= j < |Said(ops)| && SeqAt(j) == req;
  }
}
