/** The way of a packet buffer through the server: serv/network.c hands it to a device's fifo, the
    casting thread of serv/tag.c mixes it, serv/cast.c keeps it in the repeat ring, serv/packet.c takes
    it back. Any number of devices and tags, one listener, one casting thread per tag, one step for
    each hand-over. */
module Pipeline {
  import opened PacketReceive
  import opened RepeatRing
  import opened Seqs
  import opened Wrappers

  const PACK_COUNT := 1024
  const MAX_MIX := 8

  /** Where a casting thread stands, and the buffers it holds. */
  datatype Caster =
    | Idle
    | Collect(i: nat, pp: seq<nat>)   // going over the mixing slots
    | FreeRest(pp: seq<nat>)          // mixed into pp[0], freeing the others
    | Mixed(b: nat)
    | FreeFallen(b: nat)              // fell out of the ring

  /** `cast` is the history of the tag, `repeats` the places in it that were repeated. */
  datatype Tag = Tag(slots: seq<Option<nat>>, caster: Caster, ring: Ring, cast: seq<nat>, repeats: multiset<nat>)

  /** `lost` counts buffers nobody has any more. */
  datatype State = State(
    free: multiset<nat>, listener: Option<nat>, lost: multiset<nat>,
    tagOf: seq<nat>, fifos: seq<seq<nat>>, tags: seq<Tag>)

  datatype Step =
    | Refill(b: nat)                            // pack_get_fast
    | Arrive(g: Datagram)                       // recvfrom and pack_recv
    | Seat(d: nat, i: nat)                      // a control thread gives a device a slot of its own tag
    | Unseat(t: nat, i: nat)                    // or empties a slot
    | Flush(t: nat, i: nat)                     // drop_queue_front on a queue of two or more
    | BeginMix(t: nat)
    | TakeSlot(t: nat, oversized: bool)         // one round of the collecting loop
    | EndCollect(t: nat)
    | FreeOne(t: nat)
    | Silent(t: nat)                            // the mixed packet is dropped as silence
    | CastIt(t: nat)
    | FreeOld(t: nat)
    | Serve(t: nat, number: nat)                // one repeat request

  /** Each of the first n buffers once. */
  function Buffers(n: nat): (m: multiset<nat>)
    ensures forall b: nat :: m[b] == if b < n then 1 else 0
  {
    if n == 0 then multiset{} else Buffers(n - 1) + multiset{n - 1}
  }

  function Init(tagOf: seq<nat>, ntags: nat): State {
    State(Buffers(PACK_COUNT), None, multiset{}, tagOf, seq(|tagOf|, _ => []),
          seq(ntags, _ => Tag(seq(MAX_MIX, _ => None), Idle, Empty(), [], multiset{})))
  }

  predicate Enabled(s: State, step: Step) {
    match step
    case Refill(b) => s.listener == None && b in s.free
    case Arrive(g) => s.listener.Some? && (g.Audio? ==> g.d < |s.fifos|)
    case Seat(d, i) => d < |s.fifos| && d < |s.tagOf| && s.tagOf[d] < |s.tags| && i < |s.tags[s.tagOf[d]].slots|
    case Unseat(t, i) => t < |s.tags| && i < |s.tags[t].slots|
    case Flush(t, i) =>
      && t < |s.tags| && s.tags[t].caster == Idle && i < |s.tags[t].slots|
      && s.tags[t].slots[i].Some? && s.tags[t].slots[i].value < |s.fifos|
      && |s.fifos[s.tags[t].slots[i].value]| > 1
    case BeginMix(t) => t < |s.tags| && s.tags[t].caster == Idle
    case TakeSlot(t, _) => t < |s.tags| && s.tags[t].caster.Collect? && s.tags[t].caster.i < |s.tags[t].slots|
    case EndCollect(t) => t < |s.tags| && s.tags[t].caster.Collect? && s.tags[t].caster.i >= MAX_MIX
    case FreeOne(t) => t < |s.tags| && s.tags[t].caster.FreeRest? && s.tags[t].caster.pp != []
    case Silent(t) => t < |s.tags| && s.tags[t].caster.Mixed?
    case CastIt(t) => t < |s.tags| && s.tags[t].caster.Mixed? && Shaped(s.tags[t].ring)
    case FreeOld(t) => t < |s.tags| && s.tags[t].caster.FreeFallen?
    case Serve(t, number) =>
      t < |s.tags| && s.tags[t].caster == Idle && Shaped(s.tags[t].ring) && number < WORD
  }

  function WithCaster(s: State, t: nat, c: Caster): State
    requires t < |s.tags|
  {
    s.(tags := s.tags[t := s.tags[t].(caster := c)])
  }

  function SetSlot(s: State, t: nat, i: nat, dev: Option<nat>): State
    requires t < |s.tags| && i < |s.tags[t].slots|
  {
    s.(tags := s.tags[t := s.tags[t].(slots := s.tags[t].slots[i := dev])])
  }

  function Pop(s: State, d: nat): State
    requires d < |s.fifos| && s.fifos[d] != []
  {
    s.(fifos := s.fifos[d := s.fifos[d][1..]])
  }

  function Free(s: State, b: nat): State {
    s.(free := s.free + multiset{b})
  }

  function Apply(s: State, step: Step): State
    requires Enabled(s, step)
  {
    match step
    case Refill(b) => s.(listener := Some(b), free := s.free - multiset{b})
    case Arrive(g) =>
      if g.Short? then s
      else
        var b, fifo := s.listener.value, if g.Audio? then s.fifos[g.d] else [];
        var (q, r) := PackRecv(g, fifo, b);
        var s' := if g.Audio? then s.(fifos := s.fifos[g.d := q]) else s;
        if r != 0 then s'
        else s'.(listener := None, lost := if q == fifo then s.lost + multiset{b} else s.lost)
    case Seat(d, i) => SetSlot(s, s.tagOf[d], i, Some(d))
    case Unseat(t, i) => SetSlot(s, t, i, None)
    case Flush(t, i) =>
      var d := s.tags[t].slots[i].value;
      Free(Pop(s, d), s.fifos[d][0])
    case BeginMix(t) => WithCaster(s, t, Collect(0, []))
    case TakeSlot(t, oversized) =>
      var c := s.tags[t].caster;
      var dev := s.tags[t].slots[c.i];
      if dev.None? || dev.value >= |s.fifos| || s.fifos[dev.value] == [] then
        WithCaster(s, t, Collect(c.i + 1, c.pp))
      else
        var b := s.fifos[dev.value][0];
        if oversized then Free(WithCaster(Pop(s, dev.value), t, Collect(c.i + 1, c.pp)), b)
        else WithCaster(Pop(s, dev.value), t, Collect(c.i + 1, c.pp + [b]))
    case EndCollect(t) =>
      var pp := s.tags[t].caster.pp;
      WithCaster(s, t, if pp == [] then Idle else if |pp| == 1 then Mixed(pp[0]) else FreeRest(pp))
    case FreeOne(t) =>
      var pp := s.tags[t].caster.pp;
      if |pp| == 1 then WithCaster(s, t, Mixed(pp[0]))
      else Free(WithCaster(s, t, FreeRest([pp[0]] + pp[2..])), pp[1])
    case Silent(t) => Free(WithCaster(s, t, Idle), s.tags[t].caster.b)
    case CastIt(t) =>
      var b := s.tags[t].caster.b;
      var (ring, fallen) := Cast(s.tags[t].ring, b);
      s.(tags := s.tags[t := s.tags[t].(
        ring := ring, cast := s.tags[t].cast + [b],
        caster := if fallen.Some? then FreeFallen(fallen.value.buf) else Idle)])
    case FreeOld(t) => Free(WithCaster(s, t, Idle), s.tags[t].caster.b)
    case Serve(t, number) =>
      var g := s.tags[t];
      var (ring, reply) := Repeat(g.ring, number);
      s.(tags := s.tags[t := g.(ring := ring, repeats := Repeated(g.repeats, g.cast, number, reply))])
  }

  predicate Run(s: State, steps: seq<Step>, t: State)
    decreases |steps|
  {
    if steps == [] then s == t
    else Enabled(s, steps[0]) && Run(Apply(s, steps[0]), steps[1..], t)
  }

  // ---------- who has a buffer ----------

  function Is(a: nat, b: nat): int {
    if a == b then 1 else 0
  }

  function ByCaster(c: Caster, b: nat): int {
    match c
    case Idle => 0
    case Collect(_, pp) => multiset(pp)[b]
    case FreeRest(pp) => multiset(pp)[b]
    case Mixed(x) => Is(x, b)
    case FreeFallen(x) => Is(x, b)
  }

  function InSlot(o: Option<Entry>, b: nat): int {
    if o.Some? then Is(o.value.buf, b) else 0
  }

  function RingCounts(slots: seq<Option<Entry>>, b: nat): seq<int> {
    seq(|slots|, k requires 0 <= k < |slots| => InSlot(slots[k], b))
  }

  function ByRing(r: Ring, b: nat): int {
    Sum(RingCounts(r.slots, b))
  }

  function ByTag(t: Tag, b: nat): int {
    ByCaster(t.caster, b) + ByRing(t.ring, b)
  }

  function ByListener(s: State, b: nat): int {
    if s.listener.Some? then Is(s.listener.value, b) else 0
  }

  function FifoCounts(fifos: seq<seq<nat>>, b: nat): seq<int> {
    seq(|fifos|, d requires 0 <= d < |fifos| => multiset(fifos[d])[b])
  }

  function ByFifos(fifos: seq<seq<nat>>, b: nat): int {
    Sum(FifoCounts(fifos, b))
  }

  function TagCounts(tags: seq<Tag>, b: nat): seq<int> {
    seq(|tags|, t requires 0 <= t < |tags| => ByTag(tags[t], b))
  }

  function ByTags(tags: seq<Tag>, b: nat): int {
    Sum(TagCounts(tags, b))
  }

  /** How many places have buffer b. */
  function Owners(s: State, b: nat): int {
    s.free[b] + ByListener(s, b) + s.lost[b] + ByFifos(s.fifos, b) + ByTags(s.tags, b)
  }

  lemma FifosUpdate(fifos: seq<seq<nat>>, d: nat, f: seq<nat>, b: nat)
    requires d < |fifos|
    ensures ByFifos(fifos[d := f], b) == ByFifos(fifos, b) - multiset(fifos[d])[b] + multiset(f)[b]
  {
    assert FifoCounts(fifos[d := f], b) == FifoCounts(fifos, b)[d := multiset(f)[b]];
    SumUpdate(FifoCounts(fifos, b), d, multiset(f)[b]);
  }

  lemma TagsUpdate(tags: seq<Tag>, t: nat, x: Tag, b: nat)
    requires t < |tags|
    ensures ByTags(tags[t := x], b) == ByTags(tags, b) - ByTag(tags[t], b) + ByTag(x, b)
  {
    assert TagCounts(tags[t := x], b) == TagCounts(tags, b)[t := ByTag(x, b)];
    SumUpdate(TagCounts(tags, b), t, ByTag(x, b));
  }

  lemma RingUpdate(r: Ring, k: nat, o: Option<Entry>, pos: nat, seqno: nat, b: nat)
    requires k < |r.slots|
    ensures ByRing(Ring(r.slots[k := o], pos, seqno), b) == ByRing(r, b) - InSlot(r.slots[k], b) + InSlot(o, b)
  {
    assert RingCounts(r.slots[k := o], b) == RingCounts(r.slots, b)[k := InSlot(o, b)];
    SumUpdate(RingCounts(r.slots, b), k, InSlot(o, b));
  }

  lemma Split(f: seq<nat>, k: nat, b: nat)
    requires k < |f|
    ensures multiset(f)[b] == multiset(f[..k] + f[k + 1..])[b] + Is(f[k], b)
  {
    var head, tail := f[..k], f[k + 1..];
    assert f == head + ([f[k]] + tail);
    assert multiset(head + tail) == multiset(head) + multiset(tail);
    assert multiset(head + ([f[k]] + tail)) == multiset(head) + (multiset{f[k]} + multiset(tail));
  }

  lemma PopFront(f: seq<nat>, b: nat)
    requires f != []
    ensures multiset(f)[b] == multiset(f[1..])[b] + Is(f[0], b)
  {
    Split(f, 0, b);
    assert f[..0] + f[1..] == f[1..];
  }

  // ---------- every step hands over, none copies or drops ----------

  lemma ListenerConserves(s: State, step: Step, b: nat)
    requires Sound(s) && Enabled(s, step) && (step.Refill? || step.Arrive?)
    ensures Owners(Apply(s, step), b) == Owners(s, b)
  {
    if step.Arrive? && !step.g.Short? {
      ArriveConserves(s, step.g, b);
    }
  }

  /** The listener gives its buffer up exactly when somebody else, or nobody, has it. */
  lemma ArriveConserves(s: State, g: Datagram, b: nat)
    requires Sound(s) && Enabled(s, Arrive(g)) && !g.Short?
    ensures Owners(Apply(s, Arrive(g)), b) == Owners(s, b)
  {
    var x, fifo := s.listener.value, if g.Audio? then s.fifos[g.d] else [];
    AnswerIsOwnership(g, fifo, x);
    hide PackRecv, Sound, Admitted, ByTags;
    if g.Audio? {
      FifosUpdate(s.fifos, g.d, PackRecv(g, fifo, x).0, b);
      assert s.fifos[g.d := fifo] == s.fifos;
    }
    hide ByFifos;
    assert multiset(fifo + [x])[b] == multiset(fifo)[b] + Is(x, b);
    assert fifo + [x] != fifo by { assert |fifo + [x]| != |fifo|; }
  }

  lemma CasterConserves(s: State, t: nat, c: Caster, b: nat)
    requires t < |s.tags|
    ensures Owners(WithCaster(s, t, c), b) == Owners(s, b) - ByCaster(s.tags[t].caster, b) + ByCaster(c, b)
  {
    TagsUpdate(s.tags, t, s.tags[t].(caster := c), b);
  }

  lemma PopConserves(s: State, d: nat, b: nat)
    requires d < |s.fifos| && s.fifos[d] != []
    ensures Owners(Pop(s, d), b) == Owners(s, b) - Is(s.fifos[d][0], b)
  {
    FifosUpdate(s.fifos, d, s.fifos[d][1..], b);
    PopFront(s.fifos[d], b);
  }

  lemma TakeSlotConserves(s: State, t: nat, oversized: bool, b: nat)
    requires Enabled(s, TakeSlot(t, oversized))
    ensures Owners(Apply(s, TakeSlot(t, oversized)), b) == Owners(s, b)
  {
    hide Owners;
    var c := s.tags[t].caster;
    var dev := s.tags[t].slots[c.i];
    if dev.Some? && dev.value < |s.fifos| && s.fifos[dev.value] != [] {
      PopConserves(s, dev.value, b);
      CasterConserves(Pop(s, dev.value), t,
        Collect(c.i + 1, if oversized then c.pp else c.pp + [s.fifos[dev.value][0]]), b);
      FreeAdds(WithCaster(Pop(s, dev.value), t, Collect(c.i + 1, c.pp)), s.fifos[dev.value][0], b);
    } else {
      CasterConserves(s, t, Collect(c.i + 1, c.pp), b);
    }
  }

  lemma FreeAdds(s: State, x: nat, b: nat)
    ensures Owners(Free(s, x), b) == Owners(s, b) + Is(x, b)
  {
  }

  lemma WithoutSecond(pp: seq<nat>, b: nat)
    requires |pp| > 1
    ensures multiset(pp)[b] == multiset([pp[0]] + pp[2..])[b] + Is(pp[1], b)
  {
    Split(pp, 1, b);
    assert pp[..1] + pp[2..] == [pp[0]] + pp[2..];
  }

  lemma FreeOneConserves(s: State, t: nat, b: nat)
    requires Enabled(s, FreeOne(t))
    ensures Owners(Apply(s, FreeOne(t)), b) == Owners(s, b)
  {
    hide Owners;
    var pp := s.tags[t].caster.pp;
    if |pp| == 1 {
      CasterConserves(s, t, Mixed(pp[0]), b);
      PopFront(pp, b);
    } else {
      var rest := FreeRest([pp[0]] + pp[2..]);
      CasterConserves(s, t, rest, b);
      WithoutSecond(pp, b);
      FreeAdds(WithCaster(s, t, rest), pp[1], b);
      hide Is;
    }
  }

  lemma CastConserves(s: State, t: nat, b: nat)
    requires Enabled(s, CastIt(t))
    ensures Owners(Apply(s, CastIt(t)), b) == Owners(s, b)
  {
    var tag := s.tags[t];
    var n := (tag.ring.seqno + 1) % WORD;
    RingUpdate(tag.ring, tag.ring.pos, Some(Entry(tag.caster.b, n, 0)), Place(tag.ring.pos, 1), n, b);
    TagsUpdate(s.tags, t, Apply(s, CastIt(t)).tags[t], b);
  }

  /** A repeat changes a counter and no buffer. */
  lemma RepeatKeepsRing(r: Ring, number: nat, b: nat)
    requires Shaped(r)
    ensures ByRing(Repeat(r, number).0, b) == ByRing(r, b)
  {
    var k := Find(r, number, REP_CAST_SIZE);
    if k >= 0 && r.slots[k].value.repCount < 8 {
      var e := r.slots[k].value;
      RingUpdate(r, k, Some(e.(repCount := e.repCount + 1)), r.pos, r.seqno, b);
    }
  }

  lemma ServeConserves(s: State, t: nat, number: nat, b: nat)
    requires Enabled(s, Serve(t, number))
    ensures Owners(Apply(s, Serve(t, number)), b) == Owners(s, b)
  {
    var g := s.tags[t];
    RepeatKeepsRing(g.ring, number, b);
    hide Repeat, Repeated, ByRing, ByCaster;
    TagsUpdate(s.tags, t, Apply(s, Serve(t, number)).tags[t], b);
  }

  lemma SlotConserves(s: State, t: nat, i: nat, dev: Option<nat>, b: nat)
    requires t < |s.tags| && i < |s.tags[t].slots|
    ensures Owners(SetSlot(s, t, i, dev), b) == Owners(s, b)
  {
    TagsUpdate(s.tags, t, s.tags[t].(slots := s.tags[t].slots[i := dev]), b);
  }

  lemma StepConserves(s: State, step: Step, b: nat)
    requires Sound(s) && Enabled(s, step)
    ensures Owners(Apply(s, step), b) == Owners(s, b)
  {
    match step
    case Refill(_) => ListenerConserves(s, step, b);
    case Arrive(_) => ListenerConserves(s, step, b);
    case Seat(d, i) => SlotConserves(s, s.tagOf[d], i, Some(d), b);
    case Unseat(t, i) => SlotConserves(s, t, i, None, b);
    case Flush(t, i) =>
      PopConserves(s, s.tags[t].slots[i].value, b);
      FreeAdds(Pop(s, s.tags[t].slots[i].value), s.fifos[s.tags[t].slots[i].value][0], b);
    case BeginMix(t) => CasterConserves(s, t, Collect(0, []), b);
    case TakeSlot(t, oversized) => TakeSlotConserves(s, t, oversized, b);
    case EndCollect(t) =>
      CasterConserves(s, t, Apply(s, step).tags[t].caster, b);
      if |s.tags[t].caster.pp| == 1 {
        PopFront(s.tags[t].caster.pp, b);
      }
    case FreeOne(t) => FreeOneConserves(s, t, b);
    case Silent(t) =>
      CasterConserves(s, t, Idle, b);
      FreeAdds(WithCaster(s, t, Idle), s.tags[t].caster.b, b);
    case CastIt(t) => CastConserves(s, t, b);
    case FreeOld(t) =>
      CasterConserves(s, t, Idle, b);
      FreeAdds(WithCaster(s, t, Idle), s.tags[t].caster.b, b);
    case Serve(t, number) => ServeConserves(s, t, number, b);
  }

  lemma {:induction false} RunConserves(s: State, steps: seq<Step>, t: State, b: nat)
    requires Sound(s) && Run(s, steps, t)
    ensures Owners(t, b) == Owners(s, b)
    decreases |steps|
  {
    if steps != [] {
      StepConserves(s, steps[0], b);
      StepKeepsSound(s, steps[0]);
      RunConserves(Apply(s, steps[0]), steps[1..], t, b);
    }
  }

  lemma EmptyCounts(ntags: nat, ndevs: nat, b: nat)
    ensures ByRing(Empty(), b) == 0 && ByFifos(seq(ndevs, _ => []), b) == 0
    ensures ByTags(seq(ntags, _ => Tag(seq(MAX_MIX, _ => None), Idle, Empty(), [], multiset{})), b) == 0
  {
    SumBounds(RingCounts(Empty().slots, b), 0, 0);
    SumBounds(FifoCounts(seq(ndevs, _ => []), b), 0, 0);
    SumBounds(TagCounts(seq(ntags, _ => Tag(seq(MAX_MIX, _ => None), Idle, Empty(), [], multiset{})), b), 0, 0);
  }

  lemma InitOwners(tagOf: seq<nat>, ntags: nat, b: nat)
    ensures Owners(Init(tagOf, ntags), b) == if b < PACK_COUNT then 1 else 0
  {
    EmptyCounts(ntags, |tagOf|, b);
    hide ByFifos, ByTags;
  }

  /** The arrivals that pack_recv lets fall through. */
  function Unhandleds(steps: seq<Step>): nat {
    if steps == [] then 0 else (if steps[0] == Arrive(Unhandled) then 1 else 0) + Unhandleds(steps[1..])
  }

  lemma StepLoses(s: State, step: Step)
    requires Sound(s) && Enabled(s, step)
    ensures |Apply(s, step).lost| == |s.lost| + if step == Arrive(Unhandled) then 1 else 0
  {
    if step.Arrive? && !step.g.Short? {
      var x, fifo := s.listener.value, if step.g.Audio? then s.fifos[step.g.d] else [];
      AnswerIsOwnership(step.g, fifo, x);
      hide PackRecv, Sound, Admitted;
      assert fifo + [x] != fifo by { assert |fifo + [x]| != |fifo|; }
    }
  }

  lemma {:induction false} LostCount(s: State, steps: seq<Step>, t: State)
    requires Sound(s) && Run(s, steps, t)
    ensures |t.lost| == |s.lost| + Unhandleds(steps)
    decreases |steps|
  {
    if steps != [] {
      StepLoses(s, steps[0]);
      StepKeepsSound(s, steps[0]);
      LostCount(Apply(s, steps[0]), steps[1..], t);
    }
  }

  /** Over every run each of the 1024 buffers is in exactly one place: free, with the listener, in one
      fifo, with one casting thread, in one ring, or lost; and the number lost is exactly the number of
      datagrams whose type the switch does not handle. */
  lemma OwnershipIsPartition(tagOf: seq<nat>, ntags: nat, steps: seq<Step>, t: State)
    requires Run(Init(tagOf, ntags), steps, t)
    ensures forall b :: 0 <= b < PACK_COUNT ==> Owners(t, b) == 1
    ensures |t.lost| == Unhandleds(steps)
    ensures Unhandleds(steps) == 0 ==> forall b :: 0 <= b < PACK_COUNT ==> t.lost[b] == 0
  {
    InitSound(tagOf, ntags);
    LostCount(Init(tagOf, ntags), steps, t);
    forall b | 0 <= b < PACK_COUNT ensures Owners(t, b) == 1 {
      RunConserves(Init(tagOf, ntags), steps, t, b);
      InitOwners(tagOf, ntags, b);
    }
  }

  /** No place counts a buffer negatively. */
  lemma OthersNonNegative(s: State, b: nat)
    ensures 0 <= s.free[b] <= Owners(s, b)
  {
    SumNonNegative(FifoCounts(s.fifos, b));
    forall t | 0 <= t < |s.tags| ensures ByTag(s.tags[t], b) >= 0 {
      SumNonNegative(RingCounts(s.tags[t].ring.slots, b));
    }
    SumNonNegative(TagCounts(s.tags, b));
  }

  /** The buffer a step gives back to pack_free, if it is one that does. */
  function Freed(s: State, step: Step): Option<nat>
    requires Enabled(s, step)
  {
    match step
    case Flush(t, i) => Some(s.fifos[s.tags[t].slots[i].value][0])
    case TakeSlot(t, oversized) =>
      var dev := s.tags[t].slots[s.tags[t].caster.i];
      if oversized && dev.Some? && dev.value < |s.fifos| && s.fifos[dev.value] != []
      then Some(s.fifos[dev.value][0]) else None
    case FreeOne(t) => if |s.tags[t].caster.pp| > 1 then Some(s.tags[t].caster.pp[1]) else None
    case Silent(t) => Some(s.tags[t].caster.b)
    case FreeOld(t) => Some(s.tags[t].caster.b)
    case _ => None
  }

  /** What is freed is one of the 1024, nothing is freed twice, and what is freed is nowhere else
      afterwards: not in a fifo, not in a ring, not with a thread. */
  lemma FreedOnce(tagOf: seq<nat>, ntags: nat, steps: seq<Step>, t: State, step: Step)
    requires Run(Init(tagOf, ntags), steps, t) && Enabled(t, step) && Freed(t, step).Some?
    ensures
      var b := Freed(t, step).value;
      && b < PACK_COUNT && t.free[b] == 0 && Apply(t, step).free[b] == 1 && Owners(Apply(t, step), b) == 1
  {
    var b := Freed(t, step).value;
    InitSound(tagOf, ntags);
    RunConserves(Init(tagOf, ntags), steps, t, b);
    RunKeepsSound(Init(tagOf, ntags), steps, t);
    InitOwners(tagOf, ntags, b);
    StepConserves(t, step, b);
    OthersNonNegative(t, b);
    OthersNonNegative(Apply(t, step), b);
    hide Owners, Sound;
    assert Apply(t, step).free[b] == t.free[b] + 1;
  }

  // ---------- fifos and rings ----------

  ghost predicate Sound(s: State) {
    && |s.fifos| == |s.tagOf|
    && (forall d :: 0 <= d < |s.fifos| ==> |s.fifos[d]| <= FIFO_MAX)
    && (forall t :: 0 <= t < |s.tags| ==> TagSound(s, t))
  }

  /** The ring holds the last 16 packets cast, and its counters are those of the history. */
  ghost predicate RingKept(g: Tag) {
    HoldsLast(g.ring, g.cast) && Counts(g.ring, g.cast, g.repeats)
  }

  ghost predicate TagSound(s: State, t: nat)
    requires t < |s.tags|
  {
    var g := s.tags[t];
    && |g.slots| == MAX_MIX && RingKept(g)
    && (g.caster.Collect? ==> g.caster.i <= MAX_MIX)
    && (g.caster.FreeRest? ==> g.caster.pp != [])
    && forall i :: 0 <= i < MAX_MIX && g.slots[i].Some? ==>
         g.slots[i].value < |s.tagOf| && s.tagOf[g.slots[i].value] == t
  }

  lemma OtherTagsSound(s: State, s': State, t: nat)
    requires Sound(s) && t < |s.tags| == |s'.tags| && s'.tagOf == s.tagOf
    requires s'.tags == s.tags[t := s'.tags[t]] && TagSound(s', t)
    ensures forall u :: 0 <= u < |s'.tags| ==> TagSound(s', u)
  {
    hide RingKept;
    forall u | 0 <= u < |s'.tags| ensures TagSound(s', u) {
      assert TagSound(s, u);
    }
  }

  /** What a step about tag t may change: only t's own record and, in the fifos, nothing but shorten. */
  lemma TagStepKeepsSound(s: State, s': State, t: nat)
    requires Sound(s) && t < |s.tags| == |s'.tags| && s'.tagOf == s.tagOf && |s'.fifos| == |s.fifos|
    requires s'.tags == s.tags[t := s'.tags[t]] && TagSound(s', t)
    requires forall d :: 0 <= d < |s.fifos| ==> |s'.fifos[d]| <= |s.fifos[d]|
    ensures Sound(s')
  {
    hide RingKept;
    OtherTagsSound(s, s', t);
    forall d | 0 <= d < |s'.fifos| ensures |s'.fifos[d]| <= FIFO_MAX {
      assert |s'.fifos[d]| <= |s.fifos[d]|;
    }
  }

  lemma ListenerKeepsSound(s: State, step: Step)
    requires Sound(s) && Enabled(s, step) && (step.Refill? || step.Arrive?)
    ensures Sound(Apply(s, step))
  {
    var s' := Apply(s, step);
    if step.Arrive? && !step.g.Short? && step.g.Audio? {
      AnswerIsOwnership(step.g, s.fifos[step.g.d], s.listener.value);
    }
    hide RingKept, PackRecv, Admitted;
    forall t | 0 <= t < |s'.tags| ensures TagSound(s', t) {
      assert TagSound(s, t);
    }
  }

  lemma CasterKeepsSound(s: State, step: Step, t: nat)
    requires Sound(s) && Enabled(s, step)
    requires step == BeginMix(t) || step == EndCollect(t) || step == FreeOne(t)
             || step == Silent(t) || step == FreeOld(t)
    ensures Sound(Apply(s, step))
  {
    hide HoldsLast, Counts;
    assert TagSound(s, t);
    TagStepKeepsSound(s, Apply(s, step), t);
  }

  lemma SlotKeepsSound(s: State, step: Step, t: nat)
    requires Sound(s) && Enabled(s, step)
    requires step.Seat? || step.Unseat? || step.Flush? || step.TakeSlot?
    requires t == if step.Seat? then s.tagOf[step.d] else step.t
    ensures Sound(Apply(s, step))
  {
    hide HoldsLast, Counts;
    assert TagSound(s, t);
    TagStepKeepsSound(s, Apply(s, step), t);
  }

  lemma RingKeepsSound(s: State, step: Step, t: nat)
    requires Sound(s) && Enabled(s, step) && (step.CastIt? || step.Serve?) && step.t == t
    ensures Sound(Apply(s, step))
  {
    assert TagSound(s, t);
    var g := s.tags[t];
    if step.CastIt? {
      CastHoldsLast(g.ring, g.cast, g.caster.b);
      CastCounts(g.ring, g.cast, g.repeats, g.caster.b);
    } else {
      RepeatHoldsLast(g.ring, g.cast, step.number);
      RepeatCounts(g.ring, g.cast, g.repeats, step.number);
    }
    hide HoldsLast, Counts, Cast, Repeat, Find, Repeated;
    TagStepKeepsSound(s, Apply(s, step), t);
  }

  lemma StepKeepsSound(s: State, step: Step)
    requires Sound(s) && Enabled(s, step)
    ensures Sound(Apply(s, step))
  {
    hide Sound, Apply;
    match step
    case Refill(_) => ListenerKeepsSound(s, step);
    case Arrive(_) => ListenerKeepsSound(s, step);
    case Seat(d, _) => SlotKeepsSound(s, step, s.tagOf[d]);
    case Unseat(t, _) => SlotKeepsSound(s, step, t);
    case Flush(t, _) => SlotKeepsSound(s, step, t);
    case TakeSlot(t, _) => SlotKeepsSound(s, step, t);
    case CastIt(t) => RingKeepsSound(s, step, t);
    case Serve(t, _) => RingKeepsSound(s, step, t);
    case BeginMix(t) => CasterKeepsSound(s, step, t);
    case EndCollect(t) => CasterKeepsSound(s, step, t);
    case FreeOne(t) => CasterKeepsSound(s, step, t);
    case Silent(t) => CasterKeepsSound(s, step, t);
    case FreeOld(t) => CasterKeepsSound(s, step, t);
  }

  lemma {:induction false} RunKeepsSound(s: State, steps: seq<Step>, t: State)
    requires Sound(s) && Run(s, steps, t)
    ensures Sound(t)
    decreases |steps|
  {
    if steps != [] {
      StepKeepsSound(s, steps[0]);
      RunKeepsSound(Apply(s, steps[0]), steps[1..], t);
    }
  }

  lemma InitSound(tagOf: seq<nat>, ntags: nat)
    ensures Sound(Init(tagOf, ntags))
  {
    EmptyHoldsNothing();
    hide HoldsLast, Counts, Empty, Buffers;
  }

  lemma EmptyHoldsNothing()
    ensures HoldsLast(Empty(), []) && Counts(Empty(), [], multiset{})
  {
    forall d | 1 <= d <= REP_CAST_SIZE ensures HoldsBack(Empty(), [], d) {
    }
  }

  /** Over every run no fifo overfills, each tag's ring holds exactly the last 16 packets it cast, and
      every mixing slot of a tag holds a device of that tag. */
  lemma FifosAndRings(tagOf: seq<nat>, ntags: nat, steps: seq<Step>, s: State)
    requires Run(Init(tagOf, ntags), steps, s)
    ensures forall d :: 0 <= d < |s.fifos| ==> |s.fifos[d]| <= FIFO_MAX
    ensures forall t :: 0 <= t < |s.tags| ==> HoldsLast(s.tags[t].ring, s.tags[t].cast)
    ensures forall t, i :: 0 <= t < |s.tags| && 0 <= i < |s.tags[t].slots| && s.tags[t].slots[i].Some? ==>
              s.tags[t].slots[i].value < |s.tagOf| && s.tagOf[s.tags[t].slots[i].value] == t
  {
    InitSound(tagOf, ntags);
    RunKeepsSound(Init(tagOf, ntags), steps, s);
    hide HoldsLast;
    forall t | 0 <= t < |s.tags|
      ensures HoldsLast(s.tags[t].ring, s.tags[t].cast) && |s.tags[t].slots| == MAX_MIX
      ensures forall i :: 0 <= i < MAX_MIX && s.tags[t].slots[i].Some? ==>
                s.tags[t].slots[i].value < |s.tagOf| && s.tagOf[s.tags[t].slots[i].value] == t
    {
      assert TagSound(s, t);
    }
  }

  /** Over every run each packet cast is repeated at most 8 times, and a request for a number is answered
      exactly while it is one of the last 16 cast and was repeated fewer than 8 times. */
  lemma RepeatedAtMostEight(tagOf: seq<nat>, ntags: nat, steps: seq<Step>, s: State, t: nat, number: nat)
    requires Run(Init(tagOf, ntags), steps, s) && t < |s.tags| && number < WORD
    ensures
      var g := s.tags[t];
      && Shaped(g.ring)
      && (forall p: nat :: g.repeats[p] <= 8 && (p >= |g.cast| ==> g.repeats[p] == 0))
      && (Repeat(g.ring, number).1.Again? <==> Recent(g.cast, number) && Times(g.cast, g.repeats, number) < 8)
  {
    RingsKept(tagOf, ntags, steps, s, t);
    var g := s.tags[t];
    hide Run, Init, HoldsLast, Repeat, Recent, Times, CountsBack;
    AnsweredByHistory(g.ring, g.cast, g.repeats, number);
  }

  lemma RingsKept(tagOf: seq<nat>, ntags: nat, steps: seq<Step>, s: State, t: nat)
    requires Run(Init(tagOf, ntags), steps, s) && t < |s.tags|
    ensures RingKept(s.tags[t])
  {
    InitSound(tagOf, ntags);
    RunKeepsSound(Init(tagOf, ntags), steps, s);
    assert TagSound(s, t);
    hide RingKept, Run;
  }

  // ---------- what the listener does with the packets ----------

  /** A datagram of admitted audio goes to the end of its device's fifo, one of an unhandled type is lost, and
      the listener keeps its buffer for the next one in every other case. Nothing else moves. */
  lemma QueuesOrKeeps(s: State, g: Datagram)
    requires Sound(s) && Enabled(s, Arrive(g))
    ensures
      var s', b := Apply(s, Arrive(g)), s.listener.value;
      && s' == s.(fifos := s'.fifos, listener := s'.listener, lost := s'.lost)
      && if g.Audio? && Admitted(g, s.fifos[g.d]) then
           s'.fifos == s.fifos[g.d := s.fifos[g.d] + [b]] && s'.listener == None && s'.lost == s.lost
         else
           s'.fifos == s.fifos
           && s'.listener == (if g.Unhandled? then None else s.listener)
           && s'.lost == if g.Unhandled? then s.lost + multiset{b} else s.lost
  {
    if !g.Short? {
      var fifo := if g.Audio? then s.fifos[g.d] else [];
      AnswerIsOwnership(g, fifo, s.listener.value);
      assert fifo != fifo + [s.listener.value] by { assert |fifo + [s.listener.value]| == |fifo| + 1; }
      assert g.Audio? ==> s.fifos[g.d := fifo] == s.fifos;
      hide PackRecv, Admitted;
    }
  }

  /** A request served repeats the packet of that number exactly while it is one of the last 16 and was repeated
      fewer than 8 times; the history then has it once more. Nothing else changes, and no buffer moves. */
  lemma ServesExactly(s: State, t: nat, number: nat)
    requires Sound(s) && Enabled(s, Serve(t, number))
    ensures
      var s', g := Apply(s, Serve(t, number)), s.tags[t];
      && |s'.tags| == |s.tags| && s' == s.(tags := s.tags[t := s'.tags[t]])
      && s'.tags[t] == g.(ring := s'.tags[t].ring, repeats := s'.tags[t].repeats)
      && s'.tags[t].repeats ==
           (if Recent(g.cast, number) && Times(g.cast, g.repeats, number) < 8
            then g.repeats + multiset{|g.cast| - 1 - Age(g.cast, number)} else g.repeats)
      && RingKept(s'.tags[t])
  {
    assert TagSound(s, t);
    var g := s.tags[t];
    AnsweredByHistory(g.ring, g.cast, g.repeats, number);
    RepeatHoldsLast(g.ring, g.cast, number);
    RepeatCounts(g.ring, g.cast, g.repeats, number);
    hide HoldsLast, Counts, Repeat, Recent, Times, Age;
  }

  /** Every device's packets leave its fifo in the order they came: no step does more to a fifo than to put the
      listener's packet behind the others or to take the oldest away. Flushing frees the oldest. */
  lemma FifosInOrder(s: State, step: Step, d: nat)
    requires Sound(s) && Enabled(s, step) && d < |s.fifos|
    ensures |Apply(s, step).fifos| == |s.fifos|
    ensures
      var q, q' := s.fifos[d], Apply(s, step).fifos[d];
      && (q' == q || (step.Arrive? && s.listener.Some? && q' == q + [s.listener.value])
          || ((step.Flush? || step.TakeSlot?) && q != [] && q' == q[1..]))
      && (step.Flush? && s.tags[step.t].slots[step.i] == Some(d) ==>
            q != [] && q' == q[1..] && Apply(s, step).free == s.free + multiset{q[0]})
  {
    if step.Arrive? {
      QueuesOrKeeps(s, step.g);
    }
    hide PackRecv, Admitted, TagSound, Cast, Repeat, Repeated;
  }

  // ---------- what a casting thread does with the packets ----------

  /** One round of the collecting loop takes the oldest packet of the slot's device, if it has one; an oversized
      one is freed, any other kept for the mix. Nothing else moves. */
  lemma CollectsFront(s: State, t: nat, oversized: bool)
    requires Enabled(s, TakeSlot(t, oversized))
    ensures
      var s', c := Apply(s, TakeSlot(t, oversized)), s.tags[t].caster;
      var d := s.tags[t].slots[c.i];
      if d.None? || d.value >= |s.fifos| || s.fifos[d.value] == [] then
        s' == s.(tags := s'.tags) && s'.tags == s.tags[t := s.tags[t].(caster := Collect(c.i + 1, c.pp))]
      else
        var b := s.fifos[d.value][0];
        && s'.fifos == s.fifos[d.value := s.fifos[d.value][1..]]
        && s'.free == s.free + (if oversized then multiset{b} else multiset{})
        && s'.tags == s.tags[t := s.tags[t].(caster := Collect(c.i + 1, c.pp + if oversized then [] else [b]))]
        && s'.listener == s.listener && s'.lost == s.lost && s'.tagOf == s.tagOf
  {
    assert forall pp: seq<nat> :: pp + [] == pp;
    assert s.free + multiset{} == s.free;
  }

  /** The round is over after the last slot: with nothing collected it was for nothing, one packet is the mix,
      and of several all but the first are freed. */
  lemma EndsCollecting(s: State, t: nat)
    requires Enabled(s, EndCollect(t))
    ensures
      var pp := s.tags[t].caster.pp;
      Apply(s, EndCollect(t)) ==
        WithCaster(s, t, if |pp| == 0 then Idle else if |pp| == 1 then Mixed(pp[0]) else FreeRest(pp))
  {
  }

  lemma FreeOneStep(s: State, t: nat, pp: seq<nat>)
    requires t < |s.tags| && s.tags[t].caster == FreeRest(pp) && pp != []
    ensures Enabled(s, FreeOne(t))
    ensures Apply(s, FreeOne(t)) ==
              if |pp| == 1 then WithCaster(s, t, Mixed(pp[0]))
              else WithCaster(s, t, FreeRest([pp[0]] + pp[2..])).(free := s.free + multiset{pp[1]})
  {
  }

  /** Freeing one after another until only the mix is left. */
  lemma {:induction false} FreesTheOthers(s: State, t: nat, pp: seq<nat>) returns (steps: seq<Step>)
    requires t < |s.tags| && s.tags[t].caster == FreeRest(pp) && pp != []
    ensures |steps| == |pp| && forall k :: 0 <= k < |steps| ==> steps[k] == FreeOne(t)
    ensures Run(s, steps, WithCaster(s, t, Mixed(pp[0])).(free := s.free + multiset(pp[1..])))
    decreases |pp|
  {
    FreeOneStep(s, t, pp);
    hide Apply, Enabled;
    var a := Apply(s, FreeOne(t));
    var end := WithCaster(s, t, Mixed(pp[0])).(free := s.free + multiset(pp[1..]));
    if |pp| == 1 {
      steps := [FreeOne(t)];
      assert pp[1..] == [] && s.free + multiset([]) == s.free;
      assert Run(a, [], end) && steps[1..] == [];
    } else {
      var rest := [pp[0]] + pp[2..];
      var more := FreesTheOthers(a, t, rest);
      steps := [FreeOne(t)] + more;
      assert steps[1..] == more;
      assert rest[1..] == pp[2..];
      AllFreed(s.free, pp);
      SetTwice(s, t, FreeRest(rest), Mixed(pp[0]), a.free, end.free);
    }
  }

  lemma AllFreed(free: multiset<nat>, pp: seq<nat>)
    requires |pp| > 1
    ensures free + multiset{pp[1]} + multiset(pp[2..]) == free + multiset(pp[1..])
  {
    assert pp[1..] == [pp[1]] + pp[2..];
  }

  lemma SetTwice(s: State, t: nat, c: Caster, d: Caster, f: multiset<nat>, g: multiset<nat>)
    requires t < |s.tags|
    ensures WithCaster(WithCaster(s, t, c).(free := f), t, d).(free := g) == WithCaster(s, t, d).(free := g)
  {
  }

  /** The mixed packet is the newest in the ring and in the history, under the next number, repeated never; the
      one cast 16 before falls out and is freed next. */
  lemma CastsTheMix(s: State, t: nat)
    requires Sound(s) && Enabled(s, CastIt(t))
    ensures
      var s', g := Apply(s, CastIt(t)), s.tags[t];
      var b, n := g.caster.b, |g.cast|;
      && s' == s.(tags := s'.tags) && |s'.tags| == |s.tags|
      && (forall u :: 0 <= u < |s.tags| && u != t ==> s'.tags[u] == s.tags[u])
      && s'.tags[t].cast == g.cast + [b] && s'.tags[t].repeats == g.repeats && s'.tags[t].slots == g.slots
      && Shaped(s'.tags[t].ring)
      && s'.tags[t].ring.slots[Place(s'.tags[t].ring.pos, 15)] == Some(Entry(b, (n + 1) % WORD, 0))
      && s'.tags[t].caster == if n >= 16 then FreeFallen(g.cast[n - 16]) else Idle
  {
    assert TagSound(s, t);
    var g := s.tags[t];
    CastHoldsLast(g.ring, g.cast, g.caster.b);
    hide HoldsBack;
  }
}
