/** The sending side of client/rbudp.c with its two threads side by side: rbudp_broadcast fills a slot of the
    repair cache field by field, sends it and marks it as a repair, and run_retransmit tests a slot's number
    and sends the slot later, both without a lock. */
module RbudpSenderInterleaved {
  import opened RbudpPackets
  import opened RbudpSender

  /** How far rbudp_broadcast is with packet p. */
  datatype Fill =
    | Resting
    | Tagged(p: Packet)   // the tag is written, the type is still that of a repair
    | Typed(p: Packet)    // and the type
    | Numbered(p: Packet) // and the number
    | Filled(p: Packet)   // and the rest, taken as one write
    | Gone(p: Packet)     // and sent; the type is still that of an original

  /** run_retransmit found the requested number in the slot, when that was broadcast `seen`, and is about to
      send the slot. */
  datatype Grant = NoGrant | Grant(req: nat, seen: int)

  /** `done` lists the broadcasts that are complete. */
  datatype State = State(
    cache: seq<Packet>, fill: Fill, done: seq<Packet>, repSeq: seq<int>, repCount: seq<nat>, grant: Grant)

  datatype Step =
    | Begin(tag: int, data: seq<int>, extra: int)
    | Write            // the next write, or the send, of the broadcast
    | Test(req: nat)   // a request arrives
    | Send

  predicate Shaped(s: State) {
    && |s.cache| == |s.repSeq| == |s.repCount| == REP_SIZE
    && (s.grant.Grant? ==> s.grant.req <= 65535)
  }

  predicate Enabled(s: State, step: Step) {
    match step
    case Begin(_, _, _) => s.fill == Resting
    case Write => s.fill != Resting
    case Test(req) => s.grant == NoGrant && req <= 65535
    case Send => s.grant.Grant?
  }

  /** The slot that is being filled. */
  predicate InSlot(s: State, k: nat) {
    s.fill != Resting && k == s.fill.p.seqno % REP_SIZE
  }

  function Put(s: State, k: nat, e: Packet, fill: Fill): State
    requires Shaped(s) && k < REP_SIZE
  {
    s.(cache := s.cache[k := e], fill := fill)
  }

  function Wrote(s: State): (t: State)
    requires Shaped(s) && s.fill != Resting
    ensures Shaped(t)
  {
    var p, k := s.fill.p, s.fill.p.seqno % REP_SIZE;
    match s.fill
    case Tagged(_) => Put(s, k, s.cache[k].(kind := Original), Typed(p))
    case Typed(_) => Put(s, k, s.cache[k].(seqno := p.seqno), Numbered(p))
    case Numbered(_) => Put(s, k, s.cache[k].(data := p.data, extra := p.extra), Filled(p))
    case Filled(_) => s.(fill := Gone(p))
    case Gone(_) => Put(s, k, s.cache[k].(kind := Repair), Resting).(done := s.done + [p])
  }

  /** Which broadcast's number stands in slot k. */
  function Seen(s: State, k: nat): int {
    if InSlot(s, k) && !s.fill.Tagged? && !s.fill.Typed? then |s.done| else LastIn(|s.done|, k)
  }

  function Apply(s: State, step: Step): (t: State)
    requires Shaped(s) && Enabled(s, step)
    ensures Shaped(t)
  {
    match step
    case Begin(tag, data, extra) =>
      var p := Packet(tag, Original, SeqAt(|s.done|), data, extra);
      var k := p.seqno % REP_SIZE;
      Put(s, k, s.cache[k].(tag := tag), Tagged(p))
    case Write => Wrote(s)
    case Test(req) =>
      var k := req % REP_SIZE;
      if s.cache[k].seqno != req then s
      else
        var count := if s.repSeq[k] != req then 0 else s.repCount[k];
        s.(repSeq := s.repSeq[k := req], repCount := s.repCount[k := count + 1],
           grant := if count < 20 then Grant(req, Seen(s, k)) else NoGrant)
    case Send => s.(grant := NoGrant)
  }

  /** The datagram that Send puts on the wire. */
  function Datagram(s: State): Packet
    requires Shaped(s) && s.grant.Grant?
  {
    s.cache[s.grant.req % REP_SIZE]
  }

  function Start(): (s: State)
    ensures Shaped(s)
  {
    State(seq(REP_SIZE, _ => ZERO), Resting, [], seq(REP_SIZE, _ => 0), seq(REP_SIZE, _ => 0), NoGrant)
  }

  predicate Run(s: State, steps: seq<Step>, t: State)
    decreases |steps|
  {
    if steps == [] then s == t
    else Shaped(s) && Enabled(s, steps[0]) && Run(Apply(s, steps[0]), steps[1..], t)
  }

  // ---------- the invariant ----------

  /** What the slot holds while packet p goes in over old. */
  function Partial(was: Packet, fill: Fill): Packet {
    match fill
    case Resting => was
    case Tagged(p) => was.(tag := p.tag)
    case Typed(p) => was.(tag := p.tag, kind := Original)
    case Numbered(p) => was.(tag := p.tag, kind := Original, seqno := p.seqno)
    case Filled(p) => p
    case Gone(p) => p
  }

  ghost predicate SlotOk(s: State, k: nat)
    requires Shaped(s) && k < REP_SIZE
  {
    s.cache[k] == Partial(CacheEntry(s.done, k), if InSlot(s, k) then s.fill else Resting)
  }

  ghost predicate Inv(s: State) {
    && Shaped(s)
    && (forall j :: 0 <= j < |s.done| ==> s.done[j].seqno == SeqAt(j) && s.done[j].kind == Original)
    && (s.fill != Resting ==> s.fill.p.kind == Original && s.fill.p.seqno == SeqAt(|s.done|))
    && (forall k :: 0 <= k < REP_SIZE ==> SlotOk(s, k))
    && (s.grant.Grant? && s.grant.req != 0 ==> GrantOk(s))
  }

  /** The granted number is that of a broadcast made, or of the one being made. */
  ghost predicate GrantOk(s: State)
    requires s.grant.Grant?
  {
    && 0 <= s.grant.seen <= |s.done| && SeqAt(s.grant.seen) == s.grant.req
    && (s.grant.seen == |s.done| ==> s.fill != Resting && !s.fill.Tagged? && !s.fill.Typed?)
  }

  lemma TestKeepsInv(s: State, req: nat)
    requires Inv(s) && Enabled(s, Test(req))
    ensures Inv(Apply(s, Test(req)))
  {
    var k := req % REP_SIZE;
    assert SlotOk(s, k);
    var t := Apply(s, Test(req));
    forall i | 0 <= i < REP_SIZE ensures SlotOk(t, i) {
      assert SlotOk(s, i);
    }
    hide LastIn;
  }

  lemma WriteKeepsInv(s: State)
    requires Inv(s) && s.fill != Resting
    ensures Inv(Wrote(s))
  {
    var t, k := Wrote(s), s.fill.p.seqno % REP_SIZE;
    forall i | 0 <= i < REP_SIZE ensures SlotOk(t, i) {
      assert SlotOk(s, i);
      if s.fill.Gone? {
        Completed(s.done, s.fill.p, i);
      }
    }
    hide SlotOk;
  }

  lemma Completed(done: seq<Packet>, p: Packet, i: nat)
    requires p.seqno == SeqAt(|done|) && i < REP_SIZE
    ensures CacheEntry(done + [p], i) == if i == p.seqno % REP_SIZE then AsRepair(p) else CacheEntry(done, i)
  {
  }

  lemma StepKeepsInv(s: State, step: Step)
    requires Inv(s) && Enabled(s, step)
    ensures Inv(Apply(s, step))
  {
    match step
    case Begin(_, _, _) =>
      var t := Apply(s, step);
      forall i | 0 <= i < REP_SIZE ensures SlotOk(t, i) {
        assert SlotOk(s, i);
      }
      hide SlotOk;
    case Write => WriteKeepsInv(s);
    case Test(req) => TestKeepsInv(s, req);
    case Send =>
      var t := Apply(s, step);
      forall i | 0 <= i < REP_SIZE ensures SlotOk(t, i) {
        assert SlotOk(s, i);
      }
      hide SlotOk;
  }

  lemma StartInv()
    ensures Inv(Start())
  {
    forall k | 0 <= k < REP_SIZE ensures SlotOk(Start(), k) {
    }
  }

  lemma {:induction false} RunKeepsInv(s: State, steps: seq<Step>, t: State)
    requires Inv(s) && Run(s, steps, t)
    ensures Inv(t)
    decreases |steps|
  {
    if steps != [] {
      hide Inv;
      StepKeepsInv(s, steps[0]);
      RunKeepsInv(Apply(s, steps[0]), steps[1..], t);
    }
  }

  /** In every interleaving, a reply to a request for a number but 0 says that it is a repair exactly when the
      slot is not being filled at the time of the send, or no more than the new tag is in it. Undisturbed it
      is the last broadcast of the slot, unchanged; and that is the one whose number was asked for exactly
      while it is within its lifetime. Disturbed it is an original: the new one, or the new one's head with
      the old one's contents. */
  lemma ReplyIsRepairIffUndisturbed(steps: seq<Step>, s: State)
    requires Run(Start(), steps, s) && s.grant.Grant? && s.grant.req != 0
    ensures Shaped(s)
    ensures
      var k := s.grant.req % REP_SIZE;
      var last := LastIn(|s.done|, k);
      && (Datagram(s).kind == Repair <==> !InSlot(s, k) || s.fill.Tagged?)
      && (!InSlot(s, k) || s.fill.Tagged? ==>
            && 0 <= last && 0 <= s.grant.seen < |s.done| && SeqAt(s.grant.seen) == s.grant.req
            && Datagram(s) == AsRepair(s.done[last]).(tag := if InSlot(s, k) then s.fill.p.tag else s.done[last].tag)
            && (last == s.grant.seen <==> |s.done| - 1 - s.grant.seen < Lifetime(s.grant.req)))
      && (InSlot(s, k) && !s.fill.Tagged? ==>
            Datagram(s) == s.fill.p
            || (Datagram(s).tag == s.fill.p.tag && Datagram(s).data == CacheEntry(s.done, k).data))
  {
    StartInv();
    RunKeepsInv(Start(), steps, s);
    var k := s.grant.req % REP_SIZE;
    assert SlotOk(s, k) && SlotOf(s.grant.seen) == k;
    hide Run;
    if !InSlot(s, k) || s.fill.Tagged? {
      assert s.grant.seen < |s.done|;
      StillCached(|s.done|, s.grant.seen);
    }
  }

  // ---------- what was said ----------

  /** The packets rbudp_broadcast was called for, in order. */
  function Begun(steps: seq<Step>): (r: seq<Op>)
    ensures forall k :: 0 <= k < |r| ==> r[k].Say?
  {
    if steps == [] then []
    else (match steps[0]
          case Begin(tag, data, extra) => [Say(tag, data, extra)]
          case _ => []) + Begun(steps[1..])
  }

  /** Complete and begun broadcasts together carry what was said. */
  ghost predicate Bears(s: State, says: seq<Op>) {
    Carries(s.done + if s.fill == Resting then [] else [s.fill.p], says)
  }

  lemma StepBears(s: State, step: Step, says: seq<Op>)
    requires Shaped(s) && Enabled(s, step) && Bears(s, says)
    ensures Bears(Apply(s, step), says + Begun([step]))
  {
    assert Begun([step]) == (match step case Begin(tag, data, extra) => [Say(tag, data, extra)] case _ => []) by {
      assert [step][1..] == [];
    }
    var t := Apply(s, step);
    if step.Begin? {
      assert s.done + [] == s.done;
    } else {
      assert says + [] == says;
      if step.Write? && s.fill.Gone? {
        assert t.done + [] == s.done + [s.fill.p];
      }
    }
  }

  lemma {:induction false} RunBears(s: State, steps: seq<Step>, t: State, says: seq<Op>)
    requires Run(s, steps, t) && Bears(s, says)
    ensures Bears(t, says + Begun(steps))
    decreases |steps|
  {
    if steps == [] {
      assert says + [] == says;
    } else {
      StepBears(s, steps[0], says);
      hide Bears, Apply, Enabled;
      var now := says + Begun([steps[0]]);
      RunBears(Apply(s, steps[0]), steps[1..], t, now);
      assert [steps[0]][1..] == [];
      assert now + Begun(steps[1..]) == says + Begun(steps);
    }
  }

  /** In every interleaving the broadcasts carry what the caller said. */
  lemma BroadcastsAreSaid(steps: seq<Step>, s: State)
    requires Run(Start(), steps, s)
    ensures Carries(s.done + (if s.fill == Resting then [] else [s.fill.p]), Begun(steps))
  {
    assert Bears(Start(), []);
    RunBears(Start(), steps, s, []);
    assert [] + Begun(steps) == Begun(steps);
  }

  // ---------- a thread alone ----------

  function Writes(s: State, n: nat): (t: State)
    requires Shaped(s) && s.fill != Resting && n <= 5 && (n > 0 ==> s.fill.Tagged?)
    ensures Shaped(t)
    ensures n == 1 ==> t.fill.Typed?
    ensures n == 2 ==> t.fill.Numbered?
    ensures n == 3 ==> t.fill.Filled?
    ensures n == 4 ==> t.fill.Gone?
  {
    if n == 0 then s else Wrote(Writes(s, n - 1))
  }

  /** rbudp_broadcast alone sends what it was given under the next number and caches it as a repair. */
  lemma BroadcastAlone(s: State, tag: int, data: seq<int>, extra: int)
    requires Shaped(s) && s.fill == Resting
    ensures
      var p := Packet(tag, Original, SeqAt(|s.done|), data, extra);
      var b := Apply(s, Begin(tag, data, extra));
      b.fill.Tagged?
      && Writes(b, 5) == s.(cache := s.cache[p.seqno % REP_SIZE := AsRepair(p)], done := s.done + [p])
      && Writes(b, 4).cache[p.seqno % REP_SIZE] == p
  {
    var b := Apply(s, Begin(tag, data, extra));
    hide SeqAt;
    assert Writes(b, 0) == b && Writes(b, 1) == Wrote(b);
    assert Writes(b, 2) == Wrote(Writes(b, 1)) && Writes(b, 3) == Wrote(Writes(b, 2));
    assert Writes(b, 4) == Wrote(Writes(b, 3)) && Writes(b, 5) == Wrote(Writes(b, 4));
  }

  /** run_retransmit alone gives the answer of RbudpSender. */
  lemma TestIsAnswer(s: State, req: nat, counter: nat)
    requires Shaped(s) && Enabled(s, Test(req)) && counter <= 65535
    ensures
      var t, r := Apply(s, Test(req)), Answer(Sender(counter, s.cache, s.repSeq, s.repCount), req);
      && r.0 == Sender(counter, t.cache, t.repSeq, t.repCount)
      && (t.grant.Grant? <==> !r.1.Nothing?) && (t.grant.Grant? ==> Datagram(t) == r.1.p && t.grant.req == req)
      && t.cache == s.cache && t.fill == s.fill && t.done == s.done
  {
  }
}
