/** client/rbudp.c end to end: one sender, one receiver, and a channel that delivers originals in send
    order, may lose isolated ones, and delays requests and repairs as it likes.

    The receiver joins at any moment of any run of the sender; its first packet is the first broadcast
    that reaches it. A datagram may be lost only while no earlier loss is open, after the receiver has
    heard one, and when its number is neither 1 nor 65535. While a loss is open at most 7 later originals arrive and
    the numbering does not wrap among them. */
module RbudpNetwork {
  import opened RbudpPackets
  import S = RbudpSender
  import R = RbudpReceiver

  const IN_FLIGHT_MAX := 65000  // originals sent and not yet delivered or lost

  datatype Loss = NoLoss | Lost(e: nat)

  /** The receiver's first packet is broadcast `first`; the originals before `pos` have left the
      channel; requests and repairs are in flight. */
  datatype Net = Net(
    h: S.History, r: R.Receiver, first: nat, pos: nat, loss: Loss,
    requests: seq<nat>, repairs: seq<Packet>, committed: seq<Packet>)

  datatype Step = Speak(data: seq<int>, extra: int) | Deliver | Lose | Respond | DeliverRepair

  /** A receiver that has heard nothing yet, beside a sender that has sent h.sent, with broadcast
      `first` the next to come out of the channel. */
  function Join(tag: int, h: S.History, first: nat): Net {
    Net(h, R.Start(tag), first, first, NoLoss, [], [], [])
  }

  /** The sender may have been through anything, and have anything in flight for the receiver's tag. */
  ghost predicate CanJoin(tag: int, h: S.History, first: nat) {
    && S.Sound(h) && first <= |h.sent| <= first + IN_FLIGHT_MAX
    && forall j :: first <= j < |h.sent| ==> h.sent[j].tag == tag
  }

  ghost predicate Sane(n: Net) {
    && S.Sound(n.h) && R.Valid(n.r) && n.first <= n.pos <= |n.h.sent|
    && (forall k :: 0 <= k < |n.requests| ==> n.requests[k] <= 65535)
    && (forall k :: 0 <= k < |n.repairs| ==> n.repairs[k].seqno <= 65535)
  }

  ghost predicate Enabled(n: Net, step: Step) {
    match step
    case Speak(_, _) => |n.h.sent| - n.pos < IN_FLIGHT_MAX
    case Deliver =>
      && n.pos < |n.h.sent|
      && (n.loss.Lost? ==> n.pos <= n.loss.e + 7 && S.SeqAt(n.pos) > S.SeqAt(n.loss.e))
    case Lose =>
      && n.pos < |n.h.sent|
      && n.loss == NoLoss && n.pos > n.first && S.SeqAt(n.pos) != 1 && S.SeqAt(n.pos) != 65535
    case Respond => n.requests != []
    case DeliverRepair => n.repairs != []
  }

  function Numbers(asked: seq<R.Demand>): seq<nat> {
    seq(|asked|, k requires 0 <= k < |asked| => asked[k].number)
  }

  ghost function Apply(n: Net, step: Step): Net
    requires Sane(n) && Enabled(n, step)
  {
    match step
    case Speak(data, extra) => n.(h := S.Do(n.h, S.Say(n.r.tag, data, extra)))
    case Deliver =>
      var out := R.Receive(n.r, n.h.sent[n.pos], 0);
      n.(r := out.r, pos := n.pos + 1, requests := n.requests + Numbers(out.asked),
         committed := n.committed + out.committed)
    case Lose => n.(pos := n.pos + 1, loss := Lost(n.pos))
    case Respond =>
      var reply := S.Answer(n.h.s, n.requests[0]).1;
      n.(h := S.Do(n.h, S.Ask(n.requests[0])), requests := n.requests[1..],
         repairs := if reply.Nothing? then n.repairs else n.repairs + [reply.p])
    case DeliverRepair =>
      var p := n.repairs[0];
      var out := R.Receive(n.r, p, 0);
      n.(r := out.r, repairs := n.repairs[1..], requests := n.requests + Numbers(out.asked),
         committed := n.committed + out.committed,
         loss := if n.loss.Lost? && p.seqno == S.SeqAt(n.loss.e) then NoLoss else n.loss)
  }

  ghost predicate Run(n: Net, steps: seq<Step>, t: Net)
    decreases |steps|
  {
    if steps == [] then n == t
    else Sane(n) && Enabled(n, steps[0]) && Run(Apply(n, steps[0]), steps[1..], t)
  }

  /** What the callback is given of a packet, with its number. */
  function Content(p: Packet): (nat, seq<int>, int) {
    (p.seqno, p.data, p.extra)
  }

  function Contents(ps: seq<Packet>): seq<(nat, seq<int>, int)> {
    seq(|ps|, k requires 0 <= k < |ps| => Content(ps[k]))
  }

  // ---------- the invariant ----------

  ghost predicate Quiet(n: Net)
    requires n.first <= n.pos <= |n.h.sent|
  {
    && n.r.wait == [] && n.requests == [] && n.repairs == []
    && Contents(n.committed) == Contents(n.h.sent[n.first..n.pos])
    && n.r.expected == if n.pos == n.first then 0 else R.After(S.SeqAt(n.pos - 1))
  }

  ghost predicate Awaiting(n: Net, e: nat)
    requires n.first <= n.pos <= |n.h.sent|
  {
    && n.first < e < n.pos <= e + 8 && 1 < S.SeqAt(e) < 65535
    && S.SeqAt(n.pos - 1) == S.SeqAt(e) + (n.pos - 1 - e)
    && Contents(n.committed) == Contents(n.h.sent[n.first..e])
    && n.r.wait == n.h.sent[e + 1..n.pos]
    && n.r.expected == S.SeqAt(e)
    && |n.requests| + |n.repairs| <= 1
    && (n.pos == e + 1 ==> n.requests == [] && n.repairs == [])
    && (n.requests != [] ==> n.requests[0] == S.SeqAt(e))
    && (n.repairs != [] ==> n.repairs[0] == AsRepair(n.h.sent[e]))
  }

  ghost predicate Inv(n: Net, tag: int) {
    && Sane(n) && n.r.tag == tag && |n.h.sent| - n.pos <= IN_FLIGHT_MAX
    && (forall j :: n.first <= j < |n.h.sent| ==> n.h.sent[j].tag == tag)
    && match n.loss
       case NoLoss => Quiet(n)
       case Lost(e) => Awaiting(n, e)
  }

  lemma ContentsAppend(a: seq<Packet>, b: seq<Packet>)
    ensures Contents(a + b) == Contents(a) + Contents(b)
  {
  }

  lemma SpeakKeepsInv(n: Net, tag: int, data: seq<int>, extra: int)
    requires Inv(n, tag) && Enabled(n, Speak(data, extra))
    ensures Inv(Apply(n, Speak(data, extra)), tag)
  {
    S.SayKeepsSound(n.h, tag, data, extra);
    var n' := Apply(n, Speak(data, extra));
    hide S.Sound, S.SeqAt, R.Valid, Contents;
    assert n'.h.sent[n.first..n.pos] == n.h.sent[n.first..n.pos];
    if n.loss.Lost? {
      assert n'.h.sent[n.first..n.loss.e] == n.h.sent[n.first..n.loss.e];
      assert n'.h.sent[n.loss.e + 1..n.pos] == n.h.sent[n.loss.e + 1..n.pos];
    }
  }

  lemma NumberAndKind(n: Net, j: nat)
    requires S.Sound(n.h) && j < |n.h.sent|
    ensures n.h.sent[j].seqno == S.SeqAt(j) && n.h.sent[j].kind == Original
  {
  }

  lemma ReceiveExpected(r: R.Receiver, p: Packet)
    requires R.Valid(r) && p.seqno <= 65535 && p.tag == r.tag && p.seqno >= r.expected
    requires p.seqno == r.expected || (r.expected == 0 && r.wait == [])
    ensures var out := R.Receive(r, p, 0);
            out.committed == [p] + r.wait && out.r.wait == [] && out.asked == [] && R.Valid(out.r)
            && out.r.tag == r.tag && out.r.expected == R.After(([p] + r.wait)[|r.wait|].seqno)
  {
  }

  lemma ReceiveBeyond(r: R.Receiver, p: Packet)
    requires R.Valid(r) && p.seqno <= 65535 && p.tag == r.tag && 0 < r.expected < p.seqno
    requires |r.wait| < R.WAIT_MAX && (r.wait == [] ==> p.seqno == r.expected + 1)
    ensures var out := R.Receive(r, p, 0);
            out.committed == [] && out.r.wait == r.wait + [p] && out.r.expected == r.expected && R.Valid(out.r)
            && out.r.tag == r.tag && Numbers(out.asked) == if r.wait == [] then [r.expected] else []
  {
  }

  /** With nothing missing, the next original is committed at once. */
  lemma DeliverQuiet(n: Net, tag: int)
    requires Inv(n, tag) && Enabled(n, Deliver) && n.loss == NoLoss
    ensures Inv(Apply(n, Deliver), tag)
  {
    var p := n.h.sent[n.pos];
    NumberAndKind(n, n.pos);
    if n.pos > n.first {
      S.SeqStep(n.pos - 1);
    }
    hide S.Sound, S.SeqAt, R.Receive, R.Valid, R.After, Contents;
    ReceiveExpected(n.r, p);
    assert [p] + [] == [p];
    assert n.h.sent[n.first..n.pos + 1] == n.h.sent[n.first..n.pos] + [p];
    ContentsAppend(n.committed, [p]);
    ContentsAppend(n.h.sent[n.first..n.pos], [p]);
  }

  /** Past a loss, the next original waits; the first to wait sends the request. */
  lemma NextWaits(n: Net, tag: int)
    requires Inv(n, tag) && Enabled(n, Deliver) && n.loss.Lost?
    ensures
      var e, out := n.loss.e, R.Receive(n.r, n.h.sent[n.pos], 0);
      && out.committed == [] && out.r.wait == n.h.sent[e + 1..n.pos + 1]
      && out.r.expected == S.SeqAt(e) && out.r.tag == tag && R.Valid(out.r)
      && Numbers(out.asked) == (if n.pos == e + 1 then [S.SeqAt(e)] else [])
      && S.SeqAt(n.pos) == S.SeqAt(e) + (n.pos - e)
  {
    var e, p := n.loss.e, n.h.sent[n.pos];
    NumberAndKind(n, n.pos);
    S.SeqStep(n.pos - 1);
    assert p.tag == n.r.tag == tag && p.seqno == S.SeqAt(e) + (n.pos - e);
    hide S.Sound, S.SeqAt, R.Receive, R.Valid, Contents;
    ReceiveBeyond(n.r, p);
    assert n.h.sent[e + 1..n.pos + 1] == n.h.sent[e + 1..n.pos] + [n.h.sent[n.pos]];
  }

  lemma DeliverAwaiting(n: Net, tag: int)
    requires Inv(n, tag) && Enabled(n, Deliver) && n.loss.Lost?
    ensures Inv(Apply(n, Deliver), tag)
  {
    NextWaits(n, tag);
    hide S.Sound, S.SeqAt, R.Receive, R.Valid, Contents, Numbers, AsRepair, Quiet;
    assert n.committed + [] == n.committed && n.requests + [] == n.requests;
    assert n.pos == n.loss.e + 1 ==> n.requests == [] && n.repairs == [];
  }

  lemma LoseKeepsInv(n: Net, tag: int)
    requires Inv(n, tag) && Enabled(n, Lose)
    ensures Inv(Apply(n, Lose), tag)
  {
    S.SeqStep(n.pos - 1);
    hide S.Sound, S.SeqAt, R.Valid;
    assert n.h.sent[n.pos + 1..n.pos + 1] == [];
  }

  /** Only the lost packet itself answers a request for its number. */
  lemma RespondKeepsInv(n: Net, tag: int)
    requires Inv(n, tag) && Enabled(n, Respond)
    ensures Inv(Apply(n, Respond), tag)
  {
    hide S.Sound, S.Answer;
    S.AskKeepsSound(n.h, n.requests[0]);
    AnswerIsTheLostOne(n, tag);
  }

  lemma AnswerIsTheLostOne(n: Net, tag: int)
    requires Inv(n, tag) && n.requests != []
    ensures n.loss.Lost?
    ensures var reply := S.Answer(n.h.s, n.requests[0]).1;
            reply.Nothing? || reply.p == AsRepair(n.h.sent[n.loss.e])
  {
    var e, req := n.loss.e, n.requests[0];
    var k := req % S.REP_SIZE;
    S.AnswerFromCache(n.h.s, req);
    hide S.Answer, S.SeqAt, S.LastIn;
    assert n.h.s.cache[k] == S.CacheEntry(n.h.sent, k);
    assert S.SlotOf(e) == k;
    var j := S.LastIn(|n.h.sent|, k);
    assert e <= j < |n.h.sent| && n.h.s.cache[k] == AsRepair(n.h.sent[j]);
    S.SeqInjective(e, j);
  }

  lemma HoleFilled(sent: seq<Packet>, committed: seq<Packet>, first: nat, e: nat, pos: nat)
    requires first <= e < pos <= |sent| && Contents(committed) == Contents(sent[first..e])
    ensures Contents(committed + ([AsRepair(sent[e])] + sent[e + 1..pos])) == Contents(sent[first..pos])
  {
    var rest := sent[e + 1..pos];
    assert sent[first..pos] == sent[first..e] + ([sent[e]] + rest);
    ContentsAppend(committed, [AsRepair(sent[e])] + rest);
    ContentsAppend([AsRepair(sent[e])], rest);
    ContentsAppend(sent[first..e], [sent[e]] + rest);
    ContentsAppend([sent[e]], rest);
  }

  /** The repair fills the hole: it is committed with everything that waited. */
  lemma RepairKeepsInv(n: Net, tag: int)
    requires Inv(n, tag) && Enabled(n, DeliverRepair)
    ensures Inv(Apply(n, DeliverRepair), tag)
  {
    var e, p := n.loss.e, n.repairs[0];
    NumberAndKind(n, e);
    NumberAndKind(n, n.pos - 1);
    assert p.tag == n.r.tag && p.seqno == n.r.expected;
    assert ([p] + n.r.wait)[|n.r.wait|].seqno == S.SeqAt(n.pos - 1);
    hide S.Sound, S.SeqAt, R.Receive, R.Valid, R.After, Contents;
    ReceiveExpected(n.r, p);
    HoleFilled(n.h.sent, n.committed, n.first, e, n.pos);
  }

  lemma StepKeepsInv(n: Net, tag: int, step: Step)
    requires Inv(n, tag) && Enabled(n, step)
    ensures Inv(Apply(n, step), tag)
  {
    match step
    case Speak(data, extra) => SpeakKeepsInv(n, tag, data, extra);
    case Deliver =>
      if n.loss.Lost? {
        DeliverAwaiting(n, tag);
      } else {
        DeliverQuiet(n, tag);
      }
    case Lose => LoseKeepsInv(n, tag);
    case Respond => RespondKeepsInv(n, tag);
    case DeliverRepair => RepairKeepsInv(n, tag);
  }

  lemma {:induction false} RunKeepsInv(n: Net, tag: int, steps: seq<Step>, t: Net)
    requires Inv(n, tag) && Run(n, steps, t)
    ensures Inv(t, tag)
    decreases |steps|
  {
    if steps != [] {
      StepKeepsInv(n, tag, steps[0]);
      RunKeepsInv(Apply(n, steps[0]), tag, steps[1..], t);
    }
  }

  // ---------- end to end ----------

  lemma JoinInv(tag: int, h: S.History, first: nat)
    requires CanJoin(tag, h, first)
    ensures Inv(Join(tag, h, first), tag)
  {
    assert h.sent[first..first] == [] && Contents([]) == [];
    hide S.Sound;
  }

  lemma {:induction false} FirstStays(n: Net, steps: seq<Step>, t: Net)
    requires Run(n, steps, t)
    ensures t.first == n.first
    decreases |steps|
  {
    if steps != [] {
      FirstStays(Apply(n, steps[0]), steps[1..], t);
    }
  }

  /** In every run, from whatever moment the receiver joins and whatever isolated losses there are, it
      has committed exactly what was broadcast from its first packet up to the open loss, or up to the
      channel's position when none is open: in order, with nothing missing, doubled or altered. */
  lemma CommittedIsBroadcast(tag: int, h: S.History, first: nat, steps: seq<Step>, t: Net)
    requires CanJoin(tag, h, first) && Run(Join(tag, h, first), steps, t)
    ensures first <= t.pos <= |t.h.sent| && (t.loss.Lost? ==> first < t.loss.e < t.pos)
    ensures Contents(t.committed) == Contents(t.h.sent[first..if t.loss.Lost? then t.loss.e else t.pos])
    ensures t.loss == NoLoss && t.pos == |t.h.sent| ==> Contents(t.committed) == Contents(t.h.sent[first..])
  {
    JoinInv(tag, h, first);
    RunKeepsInv(Join(tag, h, first), tag, steps, t);
    FirstStays(Join(tag, h, first), steps, t);
    hide S.Sound, R.Valid;
    assert t.pos == |t.h.sent| ==> t.h.sent[first..t.pos] == t.h.sent[first..];
  }

  /** What the sender is told to say in a step, and on the way, in order. */
  function Utterance(tag: int, step: Step): seq<S.Op> {
    if step.Speak? then [S.Say(tag, step.data, step.extra)] else []
  }

  function Spoken(tag: int, steps: seq<Step>): seq<S.Op> {
    if steps == [] then [] else Utterance(tag, steps[0]) + Spoken(tag, steps[1..])
  }

  lemma StepSpeaks(n: Net, tag: int, step: Step, says: seq<S.Op>)
    requires Inv(n, tag) && Enabled(n, step) && S.Carries(n.h.sent, says)
    ensures S.Carries(Apply(n, step).h.sent, says + Utterance(tag, step))
  {
    hide S.Sound, S.Do, S.Carries, S.Answer, R.Receive, R.Valid, Quiet, Awaiting;
    match step
    case Speak(data, extra) => S.SayCarries(n.h, says, S.Say(tag, data, extra));
    case Respond => S.AskSendsNothing(n.h, n.requests[0]); assert says + [] == says;
    case _ => assert says + [] == says;
  }

  lemma {:induction false} SentIsSpoken(n: Net, tag: int, steps: seq<Step>, t: Net, says: seq<S.Op>)
    requires Inv(n, tag) && Run(n, steps, t) && S.Carries(n.h.sent, says)
    ensures S.Carries(t.h.sent, says + Spoken(tag, steps))
    decreases |steps|
  {
    hide Inv, Apply, Enabled, S.Carries, Sane, Utterance;
    if steps == [] {
      assert says + [] == says;
    } else {
      StepSpeaks(n, tag, steps[0], says);
      StepKeepsInv(n, tag, steps[0]);
      var now := says + Utterance(tag, steps[0]);
      SentIsSpoken(Apply(n, steps[0]), tag, steps[1..], t, now);
      assert now + Spoken(tag, steps[1..]) == says + Spoken(tag, steps);
    }
  }

  /** What the callback is to be given of broadcast j. */
  function Meant(says: seq<S.Op>, from: nat, to: nat): seq<(nat, seq<int>, int)>
    requires from <= to <= |says| && forall j :: 0 <= j < |says| ==> says[j].Say?
  {
    seq(to - from, k requires 0 <= k < to - from => (S.SeqAt(from + k), says[from + k].data, says[from + k].extra))
  }

  /** End to end, from callers to callback: whatever run of the sender the receiver joins, it has committed
      the payloads the sender was given, before and since, from the receiver's first packet up to the open
      loss or the channel's position. */
  lemma CommittedIsSaid(tag: int, ops: seq<S.Op>, first: nat, steps: seq<Step>, t: Net)
    requires S.Wellformed(ops) && CanJoin(tag, S.After(ops), first) && Run(Join(tag, S.After(ops), first), steps, t)
    ensures
      var says := S.Said(ops) + Spoken(tag, steps);
      var end := if t.loss.Lost? then t.loss.e else t.pos;
      && first <= end <= |says| && (forall j :: 0 <= j < |says| ==> says[j].Say?)
      && Contents(t.committed) == Meant(says, first, end)
  {
    var h := S.After(ops);
    S.SentIsSaid(ops);
    JoinInv(tag, h, first);
    SentIsSpoken(Join(tag, h, first), tag, steps, t, S.Said(ops));
    CommittedIsBroadcast(tag, h, first, steps, t);
    hide Inv, Run, Spoken, S.Said, S.After, CanJoin;
    CarriesMeant(t.h.sent, S.Said(ops) + Spoken(tag, steps), first, if t.loss.Lost? then t.loss.e else t.pos);
  }

  lemma CarriesMeant(sent: seq<Packet>, says: seq<S.Op>, from: nat, to: nat)
    requires S.Carries(sent, says) && from <= to <= |sent|
    ensures Contents(sent[from..to]) == Meant(says, from, to)
  {
    hide S.SeqAt;
  }

  /** The lost broadcast is still in the sender's cache and not yet repaired 20 times. */
  ghost predicate Answerable(t: Net) {
    && t.loss.Lost? && t.loss.e < |t.h.sent| && S.Sound(t.h)
    && |t.h.sent| - 1 - t.loss.e < S.Lifetime(S.SeqAt(t.loss.e))
    && var k := S.SlotOf(t.loss.e);
       t.h.s.repSeq[k] != S.SeqAt(t.loss.e) || t.h.s.repCount[k] < 20
  }

  lemma RespondAnswers(n: Net, tag: int)
    requires Inv(n, tag) && n.requests != [] && Answerable(n)
    ensures Apply(n, Respond).repairs == [AsRepair(n.h.sent[n.loss.e])] && Apply(n, Respond).loss == n.loss
  {
    var e := n.loss.e;
    var k := S.SlotOf(e);
    S.StillCached(|n.h.sent|, e);
    assert n.h.s.cache[k] == S.CacheEntry(n.h.sent, k);
    hide S.Lifetime;
  }

  lemma RepairFlushes(n: Net, tag: int) returns (u: Net)
    requires Inv(n, tag) && n.requests != [] && Answerable(n)
    ensures Run(n, [Respond, DeliverRepair], u)
    ensures u.loss == NoLoss && Contents(u.committed) == Contents(n.h.sent[n.first..n.pos])
  {
    RespondAnswers(n, tag);
    StepKeepsInv(n, tag, Respond);
    hide S.Sound, S.Answer, S.Do, R.Receive, R.Valid;
    var a := Apply(n, Respond);
    StepKeepsInv(a, tag, DeliverRepair);
    u := Apply(a, DeliverRepair);
    assert Run(u, [], u);
    assert Run(a, [DeliverRepair], u);
    assert [Respond, DeliverRepair][1..] == [DeliverRepair];
    SentUnchanged(n, tag);
  }

  lemma SentUnchanged(n: Net, tag: int)
    requires Inv(n, tag) && n.requests != []
    ensures Apply(n, Respond).h.sent == n.h.sent && Apply(n, Respond).pos == n.pos
  {
  }

  /** The repair does come: while the lost broadcast is within its cache lifetime and not asked for
      too often, answering the request and delivering the answer commits everything up to `pos`. */
  lemma RepairCloses(tag: int, h: S.History, first: nat, steps: seq<Step>, t: Net) returns (u: Net)
    requires CanJoin(tag, h, first) && Run(Join(tag, h, first), steps, t) && t.requests != [] && Answerable(t)
    ensures Run(t, [Respond, DeliverRepair], u)
    ensures u.loss == NoLoss && first <= t.pos <= |t.h.sent|
    ensures Contents(u.committed) == Contents(t.h.sent[first..t.pos])
  {
    hide S.Sound, R.Valid;
    JoinInv(tag, h, first);
    RunKeepsInv(Join(tag, h, first), tag, steps, t);
    FirstStays(Join(tag, h, first), steps, t);
    u := RepairFlushes(t, tag);
  }
}
