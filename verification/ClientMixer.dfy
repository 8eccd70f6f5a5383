/** client/mix.c, client/pcm.c and the use of both in client/xcast.c: one queue of packets for each
    device heard, a filter of repeated packets, and a mixer that takes one packet from each queue. */
module ClientMixer {
  import opened Seqs
  import opened Wrappers

  const QUEUE_NUM := 8
  const RECENT_SIZE := 4
  const QUEUE_MAX := 31    // a 32-slot fifo
  const SLOT_SAMPLES := 1018  // what is left of a 2K slot behind the packet head
  const FLUSH_ABOVE := 4

  /** A packet in its slot: `data` is the whole slot, of which the packet fills datalen/2 samples. */
  datatype Pack = Pack(id: int, seqno: nat, datalen: nat, data: seq<int>)

  predicate PackOk(p: Pack) {
    |p.data| == SLOT_SAMPLES && p.datalen / 2 <= SLOT_SAMPLES
  }

  /** The device a packet is queued for: the lower 24 bits of its id. */
  function Device(p: Pack): nat {
    p.id % 0x100_0000
  }

  datatype Queue = Queue(id: int, recent: seq<nat>, pos: nat, fifo: seq<Pack>)

  datatype State = State(queues: seq<Queue>, count: int, autoMax: int, fastFwd: bool)

  predicate Shaped(s: State) {
    |s.queues| == QUEUE_NUM && forall i :: 0 <= i < QUEUE_NUM ==> QueueOk(s.queues[i])
  }

  predicate QueueOk(q: Queue) {
    && |q.recent| == RECENT_SIZE && q.pos < RECENT_SIZE && |q.fifo| <= QUEUE_MAX
    && forall k :: 0 <= k < |q.fifo| ==> PackOk(q.fifo[k])
  }

  // ---------- queues ----------

  /** The first queue from i on that belongs to id, or QUEUE_NUM. */
  function FirstOf(qs: seq<Queue>, id: int, i: nat): (r: nat)
    requires i <= |qs|
    ensures i <= r <= |qs| && (r < |qs| ==> qs[r].id == id)
    ensures forall j :: i <= j < r ==> qs[j].id != id
    decreases |qs| - i
  {
    if i == |qs| || qs[i].id == id then i else FirstOf(qs, id, i + 1)
  }

  /** get_queue_index: the state after it, and the index or -1. */
  function GetIndex(s: State, id: int, create: bool): (r: (State, int))
    requires Shaped(s)
    ensures Shaped(r.0) && -1 <= r.1 < QUEUE_NUM
  {
    var i: int, free: int := FirstOf(s.queues, id, 0), FirstOf(s.queues, 0, 0);
    if id == 0 then (s, -1)
    else if i < QUEUE_NUM then (s, i)
    else if free == QUEUE_NUM || !create then (s, -1)
    else (s.(queues := s.queues[free := s.queues[free].(id := id)], count := s.count + 1), free)
  }

  function Remove(s: State, i: nat): (t: State)
    requires Shaped(s) && i < QUEUE_NUM
    ensures Shaped(t)
  {
    s.(queues := s.queues[i := s.queues[i].(id := 0, fifo := [])], count := s.count - 1)
  }

  /** mix_audio_close */
  function Close(s: State, id: int): (t: State)
    requires Shaped(s)
    ensures Shaped(t)
  {
    var r := GetIndex(s, id, false);
    if r.1 < 0 then s else Remove(r.0, r.1)
  }

  /** cleanup_queues from queue i on: a device without packets is dropped, the others lose theirs. */
  function Cleanup(s: State, i: nat): (t: State)
    requires Shaped(s) && i <= QUEUE_NUM
    ensures Shaped(t)
    decreases QUEUE_NUM - i
  {
    if i == QUEUE_NUM then s
    else if s.queues[i].id == 0 then Cleanup(s, i + 1)
    else if s.queues[i].fifo == [] then Cleanup(Remove(s, i), i + 1)
    else Cleanup(s.(queues := s.queues[i := s.queues[i].(fifo := [])]), i + 1)
  }

  /** is_recved when it answers 0: the number is entered. */
  function Enter(q: Queue, seqno: nat): (r: Queue)
    requires QueueOk(q)
    ensures QueueOk(r)
  {
    var pos := if q.pos + 1 < RECENT_SIZE then q.pos + 1 else 0;
    q.(pos := pos, recent := q.recent[pos := seqno])
  }

  /** put_mix_audio: the state after it, and -1 dropped, 0 to be played as it is, 1 queued. */
  function PutMix(s: State, p: Pack): (r: (State, int))
    requires Shaped(s) && PackOk(p)
    ensures Shaped(r.0)
  {
    var (t, i) := GetIndex(s, Device(p), true);
    if i < 0 || p.seqno in t.queues[i].recent then (t, -1)
    else
      var u := t.(queues := t.queues[i := Enter(t.queues[i], p.seqno)]);
      if u.count <= 1 then (u, 0)
      else if |u.queues[i].fifo| == QUEUE_MAX then (Cleanup(u, 0), -1)
      else
        var v := u.(queues := u.queues[i := u.queues[i].(fifo := u.queues[i].fifo + [p])]);
        if v.autoMax > 0 && |v.queues[i].fifo| >= v.autoMax then (Cleanup(v, 0).(fastFwd := true), 1)
        else (v, 1)
  }

  // ---------- mixing ----------

  /** Every device that is heard has a packet waiting. */
  predicate Ready(qs: seq<Queue>) {
    forall i :: 0 <= i < |qs| && qs[i].id != 0 ==> qs[i].fifo != []
  }

  /** Which of the waiting packets is taken: the oldest, or the newest where more than four wait and
      the mixer is not catching up. */
  function Taken(q: Queue, fastFwd: bool): (k: nat)
    requires q.fifo != []
    ensures k < |q.fifo|
  {
    if !fastFwd && |q.fifo| > FLUSH_ABOVE then |q.fifo| - 1 else 0
  }

  function After(q: Queue, fastFwd: bool): (r: Queue)
    ensures QueueOk(q) ==> QueueOk(r)
  {
    if q.id == 0 || q.fifo == [] then q else q.(fifo := q.fifo[Taken(q, fastFwd) + 1..])
  }

  function AllAfter(qs: seq<Queue>, fastFwd: bool): (r: seq<Queue>)
    ensures |r| == |qs| && forall i :: 0 <= i < |r| ==> r[i] == After(qs[i], fastFwd)
  {
    seq(|qs|, i requires 0 <= i < |qs| => After(qs[i], fastFwd))
  }

  /** The packets taken, in the order of the queues. */
  function Takes(qs: seq<Queue>, fastFwd: bool): (r: seq<Pack>) {
    if qs == [] then []
    else
      var n := |qs| - 1;
      Takes(qs[..n], fastFwd)
        + (if qs[n].id == 0 || qs[n].fifo == [] then [] else [qs[n].fifo[Taken(qs[n], fastFwd)]])
  }

  /** The nearest 16-bit sample. */
  function Clamp(x: int): int {
    if x > 32767 then 32767 else if x < -32768 then -32768 else x
  }

  function Samples(packs: seq<seq<int>>, i: nat): seq<int>
    requires forall k :: 0 <= k < |packs| ==> i < |packs[k]|
  {
    seq(|packs|, k requires 0 <= k < |packs| => packs[k][i])
  }

  /** pcm_mix: the first buffer afterwards. */
  function Mixed(packs: seq<seq<int>>, samples: nat): (r: seq<int>)
    requires packs != [] && forall k :: 0 <= k < |packs| ==> samples <= |packs[k]|
    ensures |r| == |packs[0]|
    ensures forall i :: 0 <= i < samples ==> r[i] == Clamp(Sum(Samples(packs, i)))
    ensures forall i :: samples <= i < |r| ==> r[i] == packs[0][i]
  {
    seq(|packs[0]|, i requires 0 <= i < |packs[0]| =>
      if i < samples then Clamp(Sum(Samples(packs, i))) else packs[0][i])
  }

  function Datas(packs: seq<Pack>): (r: seq<seq<int>>)
    ensures |r| == |packs| && forall k :: 0 <= k < |packs| ==> r[k] == packs[k].data
  {
    seq(|packs|, k requires 0 <= k < |packs| => packs[k].data)
  }

  /** The packet handed out: the first one taken, mixed with the others over its own length. */
  function Blend(packs: seq<Pack>): Pack
    requires packs != [] && forall k :: 0 <= k < |packs| ==> PackOk(packs[k])
  {
    assert PackOk(packs[0]);
    assert forall k :: 0 <= k < |packs| ==> PackOk(packs[k]) && |Datas(packs)[k]| == SLOT_SAMPLES;
    if |packs| == 1 then packs[0] else packs[0].(data := Mixed(Datas(packs), packs[0].datalen / 2))
  }

  /** get_mix_audio: the state after it, and the packet or nothing. */
  function GetMix(s: State): (r: (State, Option<Pack>))
    requires Shaped(s)
    ensures Shaped(r.0)
  {
    if s.count == 0 then (s, None)
    else if !Ready(s.queues) then (s.(fastFwd := false), None)
    else
      var packs := Takes(s.queues, s.fastFwd);
      TakesOk(s.queues, s.fastFwd);
      (s.(queues := AllAfter(s.queues, s.fastFwd)), if packs == [] then None else Some(Blend(packs)))
  }

  lemma {:induction false} TakesOk(qs: seq<Queue>, fastFwd: bool)
    requires forall i :: 0 <= i < |qs| ==> QueueOk(qs[i])
    ensures forall k :: 0 <= k < |Takes(qs, fastFwd)| ==> PackOk(Takes(qs, fastFwd)[k])
  {
    if qs != [] {
      TakesOk(qs[..|qs| - 1], fastFwd);
    }
  }

  // ---------- the code ----------

  /** pcm_mix's inner loop: one sample of each buffer. */
  method SumAt(bufs: seq<array<int>>, i: nat) returns (mix: int)
    requires forall k :: 0 <= k < |bufs| ==> i < bufs[k].Length
    ensures mix == Sum(Samples(Contents(bufs), i))
  {
    ghost var column := Samples(Contents(bufs), i);
    mix := 0;
    for k := 0 to |bufs|
      invariant mix == Sum(column[..k])
    {
      assert column[..k + 1] == column[..k] + [bufs[k][i]];
      SumAppend(column[..k], bufs[k][i]);
      mix := mix + bufs[k][i];
    }
    assert column[..|bufs|] == column;
  }

  /** pcm_mix: the sums go into the first buffer while the others, and it, are still being read. Two of
      the buffers may even be the same one. */
  method PcmMix(bufs: seq<array<int>>, samples: nat)
    requires 1 <= |bufs| <= 8 && forall k :: 0 <= k < |bufs| ==> samples <= bufs[k].Length
    modifies bufs[0]
    ensures bufs[0][..] == Mixed(old(Contents(bufs)), samples)
  {
    ghost var was := Contents(bufs);
    for i := 0 to samples
      invariant forall j :: 0 <= j < i ==> bufs[0][j] == Clamp(Sum(Samples(was, j)))
      invariant forall k, j :: 0 <= k < |bufs| && i <= j < bufs[k].Length ==> bufs[k][j] == was[k][j]
    {
      var mix := SumAt(bufs, i);
      assert Samples(Contents(bufs), i) == Samples(was, i);
      bufs[0][i] := if mix > 32767 then 32767 else if mix < -32768 then -32768 else mix;
    }
  }

  ghost function Contents(bufs: seq<array<int>>): (r: seq<seq<int>>)
    reads bufs
    ensures |r| == |bufs| && forall k :: 0 <= k < |bufs| ==> r[k] == bufs[k][..]
  {
    seq(|bufs|, k requires 0 <= k < |bufs| reads bufs => bufs[k][..])
  }

  /** The mixer's static variables. */
  class Mixer {
    const queues: array<Queue>
    var devCount: int
    var autoMax: int
    var fastFwd: bool

    ghost predicate Valid()
      reads this, queues
    {
      queues.Length == QUEUE_NUM && Shaped(View())
    }

    ghost function View(): State
      reads this, queues
    {
      State(queues[..], devCount, autoMax, fastFwd)
    }

    /** mix_audio_init on zeroed memory, then mix_audio_auto_close */
    constructor (autoMax: int)
      ensures Valid() && View() == Init(autoMax) && fresh(queues)
    {
      queues := new Queue[QUEUE_NUM](_ => NewQueue());
      devCount := 0;
      this.autoMax := autoMax;
      fastFwd := false;
    }

    method GetQueueIndex(id: int, create: bool) returns (index: int)
      requires Valid()
      modifies this`devCount, queues
      ensures Valid() && (View(), index) == GetIndex(old(View()), id, create)
    {
      var avi := -1;
      if id == 0 {
        return -1;
      }
      var i := 0;
      while i < QUEUE_NUM
        invariant i <= QUEUE_NUM && FirstOf(queues[..], id, 0) == FirstOf(queues[..], id, i)
        invariant avi == (if FirstOf(queues[..], 0, 0) < i then FirstOf(queues[..], 0, 0) else -1)
        invariant FirstOf(queues[..], 0, 0) >= i ==> FirstOf(queues[..], 0, 0) == FirstOf(queues[..], 0, i)
      {
        if queues[i].id == id {
          return i;
        } else if queues[i].id == 0 {
          if avi == -1 {
            avi := i;
          }
        }
        i := i + 1;
      }
      if avi == -1 || !create {
        return -1;
      }
      queues[avi] := queues[avi].(id := id);
      devCount := devCount + 1;
      return avi;
    }

    method RemoveQueue(i: nat)
      requires Valid() && i < QUEUE_NUM
      modifies this`devCount, queues
      ensures Valid() && View() == Remove(old(View()), i)
    {
      queues[i] := queues[i].(fifo := []);
      queues[i] := queues[i].(id := 0);
      devCount := devCount - 1;
    }

    /** mix_audio_open */
    method Open(id: int)
      requires Valid()
      modifies this`devCount, queues
      ensures Valid() && View() == GetIndex(old(View()), id, true).0
    {
      var i := GetQueueIndex(id, true);
    }

    /** mix_audio_close */
    method CloseDevice(id: int)
      requires Valid()
      modifies this`devCount, queues
      ensures Valid() && View() == Close(old(View()), id)
    {
      var i := GetQueueIndex(id, false);
      if i >= 0 {
        RemoveQueue(i);
      }
    }

    method CleanupQueues()
      requires Valid()
      modifies this`devCount, queues
      ensures Valid() && View() == Cleanup(old(View()), 0)
    {
      for i := 0 to QUEUE_NUM
        invariant Valid() && Cleanup(old(View()), 0) == Cleanup(View(), i)
      {
        if queues[i].id != 0 {
          if queues[i].fifo == [] {
            RemoveQueue(i);
          } else {
            queues[i] := queues[i].(fifo := []);
          }
        }
      }
    }

    method IsReceived(index: nat, seqno: nat) returns (known: bool)
      requires Valid() && index < QUEUE_NUM
      modifies queues
      ensures Valid() && known == (seqno in old(queues[index]).recent)
      ensures queues[..] == if known then old(queues[..])
                            else old(queues[..])[index := Enter(old(queues[index]), seqno)]
    {
      var q := queues[index];
      for i := 0 to RECENT_SIZE
        invariant forall j :: 0 <= j < i ==> q.recent[Back(q.pos, j)] != seqno
      {
        if seqno == q.recent[Back(q.pos, i)] {
          return true;
        }
      }
      forall k | 0 <= k < RECENT_SIZE ensures q.recent[k] != seqno {
        assert k == Back(q.pos, if k <= q.pos then q.pos - k else q.pos + RECENT_SIZE - k);
      }
      var pos := if q.pos + 1 < RECENT_SIZE then q.pos + 1 else 0;
      queues[index] := q.(pos := pos, recent := q.recent[pos := seqno]);
      return false;
    }

    /** put_mix_audio */
    method Put(p: Pack) returns (r: int)
      requires Valid() && PackOk(p)
      modifies this`devCount, this`fastFwd, queues
      ensures Valid() && (View(), r) == PutMix(old(View()), p)
    {
      hide Cleanup, FirstOf, GetIndex, Enter;
      var i := GetQueueIndex(Device(p), true);
      if i < 0 {
        return -1;
      }
      var known := IsReceived(i, p.seqno);
      if known {
        return -1;
      }
      if devCount <= 1 {
        return 0;
      }
      if |queues[i].fifo| == QUEUE_MAX {
        CleanupQueues();
        return -1;
      }
      queues[i] := queues[i].(fifo := queues[i].fifo + [p]);
      if autoMax > 0 && |queues[i].fifo| >= autoMax {
        CleanupQueues();
        fastFwd := true;
      }
      return 1;
    }

    /** flush_queue, then the packet taken. */
    method TakeFrom(i: nat) returns (p: Pack)
      requires Valid() && i < QUEUE_NUM && queues[i].fifo != []
      modifies queues
      ensures Valid() && p == old(queues[i]).fifo[Taken(old(queues[i]), fastFwd)]
      ensures var was := old(queues[i]);
              queues[..] == old(queues[..])[i := was.(fifo := was.fifo[Taken(was, fastFwd) + 1..])]
    {
      ghost var was := queues[i].fifo;
      if !fastFwd && |queues[i].fifo| > FLUSH_ABOVE {
        var l := |queues[i].fifo|;
        while l > 1
          invariant 1 <= l <= |was| && queues[i].fifo == was[|was| - l..]
          invariant queues[..] == old(queues[..])[i := old(queues[i]).(fifo := queues[i].fifo)]
        {
          queues[i] := queues[i].(fifo := queues[i].fifo[1..]);
          l := l - 1;
        }
      }
      p := queues[i].fifo[0];
      queues[i] := queues[i].(fifo := queues[i].fifo[1..]);
      assert QueueOk(old(queues[i]));
      assert queues[i].fifo == was[|was| - |queues[i].fifo|..];
      assert forall k :: 0 <= k < |queues[i].fifo| ==>
        queues[i].fifo[k] == was[|was| - |queues[i].fifo| + k] && PackOk(queues[i].fifo[k]);
      assert forall j :: 0 <= j < QUEUE_NUM && j != i ==> queues[j] == old(queues[j]) && QueueOk(old(View()).queues[j]);
    }

    /** The check that every device heard has a packet. */
    method AllReady() returns (ready: bool)
      requires Valid()
      ensures ready == Ready(View().queues)
    {
      for i := 0 to QUEUE_NUM
        invariant Ready(queues[..i])
      {
        if queues[i].id != 0 && queues[i].fifo == [] {
          assert View().queues[i] == queues[i];
          return false;
        }
      }
      assert queues[..QUEUE_NUM] == queues[..];
      return true;
    }

    /** One round of the second loop of get_mix_audio. */
    method TakeOne(i: nat) returns (packs: seq<Pack>)
      requires Valid() && i < QUEUE_NUM && (queues[i].id != 0 ==> queues[i].fifo != [])
      modifies queues
      ensures Valid() && queues[..] == old(queues[..])[i := After(old(queues[i]), fastFwd)]
      ensures packs == var q := old(queues[i]); if q.id == 0 || q.fifo == [] then [] else [q.fifo[Taken(q, fastFwd)]]
    {
      packs := [];
      if queues[i].id != 0 {
        var out := TakeFrom(i);
        packs := [out];
      }
    }

    /** The second loop of get_mix_audio. */
    method TakeAll() returns (packs: seq<Pack>)
      requires Valid() && Ready(View().queues)
      modifies queues
      ensures Valid() && packs == Takes(old(View()).queues, fastFwd)
      ensures queues[..] == AllAfter(old(queues[..]), fastFwd)
    {
      hide PackOk, QueueOk, Taken, After;
      ghost var was := queues[..];
      assert forall j :: 0 <= j < QUEUE_NUM ==> was[j] == View().queues[j];
      packs := [];
      for i := 0 to QUEUE_NUM
        invariant Valid() && packs == Takes(was[..i], fastFwd)
        invariant forall j :: 0 <= j < i ==> queues[j] == After(was[j], fastFwd)
        invariant forall j :: i <= j < QUEUE_NUM ==> queues[j] == was[j]
      {
        assert was[..i + 1][..i] == was[..i];
        var more := TakeOne(i);
        packs := packs + more;
      }
      assert was[..QUEUE_NUM] == was;
    }

    /** The call of pcm_mix, over the slots of the packets taken. */
    method BlendPacks(packs: seq<Pack>) returns (p: Pack)
      requires 1 <= |packs| <= QUEUE_NUM && forall k :: 0 <= k < |packs| ==> PackOk(packs[k])
      ensures p == Blend(packs)
    {
      if |packs| == 1 {
        return packs[0];
      }
      var bufs: seq<array<int>> := [];
      for k := 0 to |packs|
        invariant |bufs| == k && forall j :: 0 <= j < k ==> fresh(bufs[j]) && bufs[j][..] == packs[j].data
      {
        var data := packs[k].data;
        var slot := new int[|data|](i requires 0 <= i < |data| => data[i]);
        assert slot[..] == data;
        bufs := bufs + [slot];
      }
      assert forall j :: 0 <= j < |packs| ==> PackOk(packs[j]) && bufs[j].Length == |bufs[j][..]|;
      assert Contents(bufs) == Datas(packs);
      PcmMix(bufs, packs[0].datalen / 2);
      p := packs[0].(data := bufs[0][..]);
    }

    /** get_mix_audio */
    method Get() returns (p: Option<Pack>)
      requires Valid()
      modifies this`fastFwd, queues
      ensures Valid() && (View(), p) == GetMix(old(View()))
    {
      hide After, Takes, Taken;
      if devCount == 0 {
        return None;
      }
      var ready := AllReady();
      if !ready {
        fastFwd := false;
        return None;
      }
      TakesOk(View().queues, fastFwd);
      TakesAtMost(View().queues, fastFwd);
      var packs := TakeAll();
      if packs == [] {
        return None;
      }
      var q := BlendPacks(packs);
      return Some(q);
    }

    /** The loop of mix_audio_pack in client/xcast.c: play what get_mix_audio gives until it gives nothing. */
    method DrainAll() returns (out: seq<Pack>)
      requires Valid() && Inv(View())
      modifies this`fastFwd, queues
      ensures Valid() && (View(), out) == Drain(old(View()))
    {
      hide GetMix, Heard, Inv;
      out := [];
      ghost var s := View();
      DrainStep(s);
      var p := Get();
      while p.Some?
        invariant Valid() && Shaped(s) && Inv(s) && (View(), p) == GetMix(s)
        invariant Drain(old(View())).0 == Drain(s).0 && Drain(old(View())).1 == out + Drain(s).1
        decreases Total(s.queues)
      {
        GetShrinks(s);
        GetKeeps(s);
        DrainStep(s);
        out := out + [p.value];
        s := View();
        p := Get();
      }
      DrainStep(s);
      assert out + [] == out;
    }

    /** mix_audio_pack: what is played. */
    method MixAudioPack(p: Pack) returns (out: seq<Pack>)
      requires Valid() && Inv(View()) && PackOk(p)
      modifies this`devCount, this`fastFwd, queues
      ensures Valid() && (View(), out) == Play(old(View()), p)
    {
      PutKeeps(View(), p);
      hide PutMix, Drain, Heard;
      var r := Put(p);
      if r < 0 {
        return [];
      }
      if r == 0 {
        return [p];
      }
      out := DrainAll();
    }
  }

  lemma {:induction false} TakesAtMost(qs: seq<Queue>, fastFwd: bool)
    ensures |Takes(qs, fastFwd)| <= |qs|
  {
    if qs != [] {
      TakesAtMost(qs[..|qs| - 1], fastFwd);
    }
  }

  /** (pos + RECENT_SIZE - i) & RECENT_MASK */
  function Back(pos: nat, i: nat): (r: nat)
    requires pos < RECENT_SIZE && i < RECENT_SIZE
    ensures r < RECENT_SIZE
  {
    if i <= pos then pos - i else pos + RECENT_SIZE - i
  }

  function NewQueue(): Queue {
    Queue(0, [0, 0, 0, 0], 0, [])
  }

  function Init(autoMax: int): State {
    State(seq(QUEUE_NUM, _ => NewQueue()), 0, autoMax, false)
  }

  // ---------- what every call keeps ----------

  function Ones(qs: seq<Queue>): seq<int> {
    seq(|qs|, i requires 0 <= i < |qs| => if qs[i].id == 0 then 0 else 1)
  }

  function Heard(qs: seq<Queue>): int {
    Sum(Ones(qs))
  }

  ghost predicate Inv(s: State) {
    && Shaped(s)
    && s.count == Heard(s.queues)
    && (forall i, j :: 0 <= i < j < QUEUE_NUM && s.queues[i].id == s.queues[j].id ==> s.queues[i].id == 0)
    && (forall i :: 0 <= i < QUEUE_NUM && s.queues[i].id == 0 ==> s.queues[i].fifo == [])
  }

  lemma HeardUpdate(qs: seq<Queue>, i: nat, q: Queue)
    requires i < |qs|
    ensures Heard(qs[i := q]) == Heard(qs) - (if qs[i].id == 0 then 0 else 1) + (if q.id == 0 then 0 else 1)
  {
    var one := if q.id == 0 then 0 else 1;
    assert Ones(qs[i := q]) == Ones(qs)[i := one];
    SumUpdate(Ones(qs), i, one);
  }

  /** A queue's content may change while its device stays. */
  lemma SameDeviceKeeps(s: State, i: nat, q: Queue)
    requires Inv(s) && i < QUEUE_NUM && q.id == s.queues[i].id && q.id != 0 && QueueOk(q)
    ensures Inv(s.(queues := s.queues[i := q]))
  {
    HeardUpdate(s.queues, i, q);
    hide Heard;
  }

  lemma GetIndexKeeps(s: State, id: int, create: bool)
    requires Inv(s)
    ensures Inv(GetIndex(s, id, create).0)
    ensures GetIndex(s, id, create).1 >= 0 ==>
              id != 0 && GetIndex(s, id, create).0.queues[GetIndex(s, id, create).1].id == id
  {
    var free := FirstOf(s.queues, 0, 0);
    if free < QUEUE_NUM {
      HeardUpdate(s.queues, free, s.queues[free].(id := id));
    }
    hide Heard;
  }

  lemma RemoveKeeps(s: State, i: nat)
    requires Inv(s) && i < QUEUE_NUM && s.queues[i].id != 0
    ensures Inv(Remove(s, i))
  {
    HeardUpdate(s.queues, i, s.queues[i].(id := 0, fifo := []));
    hide Heard;
  }

  lemma CloseKeeps(s: State, id: int)
    requires Inv(s)
    ensures Inv(Close(s, id))
  {
    GetIndexKeeps(s, id, false);
    if GetIndex(s, id, false).1 >= 0 {
      RemoveKeeps(GetIndex(s, id, false).0, GetIndex(s, id, false).1);
    }
    hide GetIndex, Inv;
  }

  lemma {:induction false} CleanupKeeps(s: State, i: nat)
    requires Inv(s) && i <= QUEUE_NUM
    ensures Inv(Cleanup(s, i))
    decreases QUEUE_NUM - i
  {
    if i < QUEUE_NUM {
      if s.queues[i].id == 0 {
        CleanupKeeps(s, i + 1);
      } else if s.queues[i].fifo == [] {
        RemoveKeeps(s, i);
        CleanupKeeps(Remove(s, i), i + 1);
      } else {
        SameDeviceKeeps(s, i, s.queues[i].(fifo := []));
        CleanupKeeps(s.(queues := s.queues[i := s.queues[i].(fifo := [])]), i + 1);
      }
    }
  }

  lemma PutKeeps(s: State, p: Pack)
    requires Inv(s) && PackOk(p)
    ensures Inv(PutMix(s, p).0)
  {
    GetIndexKeeps(s, Device(p), true);
    var (t, i) := GetIndex(s, Device(p), true);
    hide GetIndex, Heard, Cleanup;
    if i >= 0 && p.seqno !in t.queues[i].recent {
      SameDeviceKeeps(t, i, Enter(t.queues[i], p.seqno));
      var u := t.(queues := t.queues[i := Enter(t.queues[i], p.seqno)]);
      hide Inv, Enter;
      if u.count > 1 {
        if |u.queues[i].fifo| == QUEUE_MAX {
          CleanupKeeps(u, 0);
        } else {
          PutKeepsQueued(u, i, p);
        }
      }
    }
  }

  lemma PutKeepsQueued(u: State, i: nat, p: Pack)
    requires Inv(u) && PackOk(p) && i < QUEUE_NUM && u.queues[i].id != 0 && |u.queues[i].fifo| < QUEUE_MAX
    ensures
      var v := u.(queues := u.queues[i := u.queues[i].(fifo := u.queues[i].fifo + [p])]);
      Inv(v) && Inv(Cleanup(v, 0).(fastFwd := true))
  {
    var v := u.(queues := u.queues[i := u.queues[i].(fifo := u.queues[i].fifo + [p])]);
    SameDeviceKeeps(u, i, v.queues[i]);
    CleanupKeeps(v, 0);
    hide Heard;
  }

  lemma GetKeeps(s: State)
    requires Inv(s)
    ensures Inv(GetMix(s).0)
  {
    var qs := AllAfter(s.queues, s.fastFwd);
    assert Ones(qs) == Ones(s.queues);
    hide Takes, Blend, Heard, Ready;
  }

  // ---------- taking one from each ----------

  function Lengths(qs: seq<Queue>): seq<int> {
    seq(|qs|, i requires 0 <= i < |qs| => |qs[i].fifo|)
  }

  /** How many packets wait in all. */
  function Total(qs: seq<Queue>): int {
    Sum(Lengths(qs))
  }

  lemma {:induction false} TakesShorten(qs: seq<Queue>, fastFwd: bool)
    ensures 0 <= Total(AllAfter(qs, fastFwd)) <= Total(qs) - |Takes(qs, fastFwd)|
  {
    if qs != [] {
      var n := |qs| - 1;
      TakesShorten(qs[..n], fastFwd);
      assert Lengths(qs)[..n] == Lengths(qs[..n]);
      assert Lengths(AllAfter(qs, fastFwd))[..n] == Lengths(AllAfter(qs[..n], fastFwd));
    }
  }

  lemma {:induction false} OneFromEach(qs: seq<Queue>, fastFwd: bool)
    requires Ready(qs)
    ensures |Takes(qs, fastFwd)| == Heard(qs)
  {
    if qs != [] {
      var n := |qs| - 1;
      assert forall i :: 0 <= i < n ==> qs[..n][i] == qs[i];
      OneFromEach(qs[..n], fastFwd);
      assert Ones(qs)[..n] == Ones(qs[..n]);
    }
  }

  /** get_mix_audio gives a packet exactly when somebody is heard and everybody heard has a packet. It
      then takes from every such queue and from no other; otherwise no queue changes. */
  lemma FromAllOrNone(s: State)
    requires Inv(s)
    ensures
      var (t, p) := GetMix(s);
      && (p.Some? <==> s.count > 0 && Ready(s.queues))
      && (p.Some? ==> |Takes(s.queues, s.fastFwd)| == s.count)
      && (p.Some? ==> forall i :: 0 <= i < QUEUE_NUM && s.queues[i].id != 0 ==> |t.queues[i].fifo| < |s.queues[i].fifo|)
      && (p.Some? ==> forall i :: 0 <= i < QUEUE_NUM && s.queues[i].id == 0 ==> t.queues[i] == s.queues[i])
      && (p.None? ==> t.queues == s.queues)
      && t.count == s.count
  {
    SumBounds(Ones(s.queues), 0, 1);
    if Ready(s.queues) {
      OneFromEach(s.queues, s.fastFwd);
    }
    TakesOk(s.queues, s.fastFwd);
    hide Takes, Heard, Blend;
  }

  /** The packet taken from queue i stands behind those of the queues before it. */
  lemma {:induction false} TakesAt(qs: seq<Queue>, fastFwd: bool, i: nat)
    requires Ready(qs) && i < |qs| && qs[i].id != 0
    ensures 0 <= Heard(qs[..i]) < |Takes(qs, fastFwd)| && qs[i].fifo != []
    ensures Takes(qs, fastFwd)[Heard(qs[..i])] == qs[i].fifo[Taken(qs[i], fastFwd)]
    decreases |qs|
  {
    var n := |qs| - 1;
    assert forall k :: 0 <= k < n ==> qs[..n][k] == qs[k];
    if i < n {
      TakesAt(qs[..n], fastFwd, i);
      assert qs[..n][..i] == qs[..i];
    } else {
      OneFromEach(qs[..n], fastFwd);
      SumBounds(Ones(qs[..n]), 0, 1);
    }
  }

  /** Of a queue with at most four packets the oldest is taken and the others stay; of a longer one the newest
      is taken and none stays. What is handed out is the blend of these, in the order of the queues. */
  lemma OneTakenFromEach(s: State, i: nat)
    requires Inv(s) && !s.fastFwd && s.count > 0 && Ready(s.queues) && i < QUEUE_NUM && s.queues[i].id != 0
    ensures
      var (t, p) := GetMix(s);
      var f, at, packs := s.queues[i].fifo, Heard(s.queues[..i]), Takes(s.queues, false);
      && f != [] && 0 <= at < |packs| == s.count && (forall k :: 0 <= k < |packs| ==> PackOk(packs[k]))
      && p == Some(Blend(packs))
      && (|f| <= 4 ==> t.queues[i].fifo == f[1..] && packs[at] == f[0])
      && (|f| > 4 ==> t.queues[i].fifo == [] && packs[at] == f[|f| - 1])
  {
    TakesAt(s.queues, false, i);
    TakesOk(s.queues, false);
    OneFromEach(s.queues, false);
    hide Takes, Heard, Blend, Ready;
  }

  function Distance(a: int, b: int): int {
    if a > b then a - b else b - a
  }

  /** Sample i of each packet. */
  function Column(packs: seq<Pack>, i: nat): (c: seq<int>)
    requires (forall k :: 0 <= k < |packs| ==> PackOk(packs[k])) && i < SLOT_SAMPLES
    ensures |c| == |packs| && forall k :: 0 <= k < |packs| ==> PackOk(packs[k]) && c[k] == packs[k].data[i]
  {
    assert forall k :: 0 <= k < |packs| ==> PackOk(packs[k]) && |Datas(packs)[k]| == SLOT_SAMPLES;
    Samples(Datas(packs), i)
  }

  /** Each sample of a mixed packet is the sum of that sample of all the packets taken when the sum
      fits 16 bits, and the nearest 16-bit number when it does not; the rest is the first packet's. */
  lemma BlendIsNearestSum(packs: seq<Pack>, i: nat)
    requires |packs| > 1 && (forall k :: 0 <= k < |packs| ==> PackOk(packs[k])) && i < SLOT_SAMPLES
    ensures |Blend(packs).data| == SLOT_SAMPLES
    ensures
      var sum := Sum(Column(packs, i));
      var x := Blend(packs).data[i];
      if i < packs[0].datalen / 2 then
        -32768 <= x <= 32767 && (-32768 <= sum <= 32767 ==> x == sum)
        && forall y :: -32768 <= y <= 32767 ==> Distance(x, sum) <= Distance(y, sum)
      else x == packs[0].data[i]
  {
    assert PackOk(packs[0]);
  }

  /** A mixed packet keeps the head of the first one, and a single one is handed out as it came. */
  lemma BlendKeepsHead(packs: seq<Pack>)
    requires packs != [] && forall k :: 0 <= k < |packs| ==> PackOk(packs[k])
    ensures Blend(packs).(data := packs[0].data) == packs[0] && PackOk(Blend(packs))
    ensures |packs| == 1 ==> Blend(packs) == packs[0]
  {
    assert PackOk(packs[0]);
  }

  lemma GetShrinks(s: State)
    requires Inv(s) && GetMix(s).1.Some?
    ensures 0 <= Total(GetMix(s).0.queues) < Total(s.queues)
  {
    TakesShorten(s.queues, s.fastFwd);
  }

  /** The playing loop: everything get_mix_audio gives until it gives nothing. */
  function Drain(s: State): (r: (State, seq<Pack>))
    requires Inv(s)
    ensures Inv(r.0)
    decreases Total(s.queues)
  {
    var (t, p) := GetMix(s);
    GetKeeps(s);
    if p.None? then (t, [])
    else
      GetShrinks(s);
      (Drain(t).0, [p.value] + Drain(t).1)
  }

  lemma DrainStep(s: State)
    requires Inv(s)
    ensures Shaped(s)
    ensures
      var (t, p) := GetMix(s);
      if p.None? then Drain(s) == (t, [])
      else Inv(t) && Drain(s).0 == Drain(t).0 && Drain(s).1 == [p.value] + Drain(t).1
  {
    GetKeeps(s);
    hide GetMix;
  }

  /** mix_audio_pack */
  function Play(s: State, p: Pack): (r: (State, seq<Pack>))
    requires Inv(s) && PackOk(p)
    ensures Inv(r.0)
  {
    PutKeeps(s, p);
    var (t, code) := PutMix(s, p);
    if code < 0 then (t, []) else if code == 0 then (t, [p]) else Drain(t)
  }

  // ---------- runs ----------

  datatype Event = Opened(id: int) | Closed(id: int) | Arrived(p: Pack)

  function Do(s: State, e: Event): (t: State)
    requires Inv(s) && (e.Arrived? ==> PackOk(e.p))
    ensures Inv(t)
  {
    match e
    case Opened(id) => GetIndexKeeps(s, id, true); GetIndex(s, id, true).0
    case Closed(id) => CloseKeeps(s, id); Close(s, id)
    case Arrived(p) => Play(s, p).0
  }

  ghost predicate EventsOk(events: seq<Event>) {
    forall k :: 0 <= k < |events| && events[k].Arrived? ==> PackOk(events[k].p)
  }

  lemma InitInv(autoMax: int)
    ensures Inv(Init(autoMax))
  {
    SumBounds(Ones(Init(autoMax).queues), 0, 0);
  }

  function DoAll(autoMax: int, events: seq<Event>): (t: State)
    requires EventsOk(events)
    ensures Inv(t)
  {
    if events == [] then InitInv(autoMax); Init(autoMax)
    else Do(DoAll(autoMax, events[..|events| - 1]), events[|events| - 1])
  }

  /** After any run of opens, closes and packets: the count is the number of queues in use, no device has
      two, a queue not in use is empty, and none holds more than its fifo can. */
  lemma QueueBookkeeping(autoMax: int, events: seq<Event>)
    requires EventsOk(events)
    ensures
      var s := DoAll(autoMax, events);
      && s.count == Heard(s.queues)
      && (forall i, j :: 0 <= i < j < QUEUE_NUM && s.queues[i].id == s.queues[j].id ==> s.queues[i].id == 0)
      && (forall i :: 0 <= i < QUEUE_NUM ==> |s.queues[i].fifo| <= (if s.queues[i].id == 0 then 0 else QUEUE_MAX))
  {
    hide DoAll;
  }

  // ---------- repeated packets ----------

  /** The number accepted d packets ago, counting the zeros the memory starts with. */
  function Ago(h: seq<nat>, d: nat): nat {
    if d < |h| then h[|h| - 1 - d] else 0
  }

  ghost predicate Remembers(q: Queue, h: seq<nat>) {
    QueueOk(q) && forall d :: 0 <= d < RECENT_SIZE ==> q.recent[Back(q.pos, d)] == Ago(h, d)
  }

  lemma EnterRemembers(q: Queue, h: seq<nat>, seqno: nat)
    requires Remembers(q, h)
    ensures Remembers(Enter(q, seqno), h + [seqno])
  {
    var r := Enter(q, seqno);
    forall d | 0 <= d < RECENT_SIZE ensures r.recent[Back(r.pos, d)] == Ago(h + [seqno], d) {
      if d > 0 {
        assert q.recent[Back(q.pos, d - 1)] == Ago(h, d - 1);
      }
    }
  }

  /** is_recved says yes exactly for the last four numbers of the slot, zeros before the first four. */
  lemma KnownIffRecent(q: Queue, h: seq<nat>, seqno: nat)
    requires Remembers(q, h)
    ensures seqno in q.recent <==> exists d :: 0 <= d < RECENT_SIZE && Ago(h, d) == seqno
  {
    if seqno in q.recent {
      var k :| 0 <= k < RECENT_SIZE && q.recent[k] == seqno;
      var d := if k <= q.pos then q.pos - k else q.pos + RECENT_SIZE - k;
      assert Back(q.pos, d) == k && Ago(h, d) == seqno;
    }
    forall d | 0 <= d < RECENT_SIZE && Ago(h, d) == seqno ensures seqno in q.recent {
      assert q.recent[Back(q.pos, d)] == seqno;
    }
  }

  ghost predicate SameRecent(s: State, t: State)
    requires Shaped(s) && Shaped(t)
  {
    forall i :: 0 <= i < QUEUE_NUM ==> t.queues[i].recent == s.queues[i].recent && t.queues[i].pos == s.queues[i].pos
  }

  lemma {:induction false} CleanupSameRecent(s: State, i: nat)
    requires Shaped(s) && i <= QUEUE_NUM
    ensures SameRecent(s, Cleanup(s, i))
    decreases QUEUE_NUM - i
  {
    if i < QUEUE_NUM {
      if s.queues[i].id == 0 {
        CleanupSameRecent(s, i + 1);
      } else if s.queues[i].fifo == [] {
        CleanupSameRecent(Remove(s, i), i + 1);
      } else {
        CleanupSameRecent(s.(queues := s.queues[i := s.queues[i].(fifo := [])]), i + 1);
      }
    }
  }

  lemma {:induction false} DrainSameRecent(s: State)
    requires Inv(s)
    ensures SameRecent(s, Drain(s).0)
    decreases Total(s.queues)
  {
    DrainStep(s);
    GetSameRecent(s);
    if GetMix(s).1.Some? {
      GetShrinks(s);
      DrainSameRecent(GetMix(s).0);
    }
    hide Drain, GetMix, Inv, Total;
  }

  lemma GetSameRecent(s: State)
    requires Shaped(s)
    ensures SameRecent(s, GetMix(s).0)
  {
    hide Takes, Blend, Ready;
  }

  /** The number an event enters at slot i. */
  function Accepts(s: State, e: Event, i: nat): seq<nat>
    requires Shaped(s) && i < QUEUE_NUM
  {
    if !e.Arrived? then []
    else
      var (t, j) := GetIndex(s, Device(e.p), true);
      if j == i && e.p.seqno !in t.queues[i].recent then [e.p.seqno] else []
  }

  /** The numbers slot i has accepted over a run, whatever devices had the slot. */
  function Accepted(autoMax: int, events: seq<Event>, i: nat): seq<nat>
    requires EventsOk(events) && i < QUEUE_NUM
  {
    if events == [] then []
    else
      Accepted(autoMax, events[..|events| - 1], i)
        + Accepts(DoAll(autoMax, events[..|events| - 1]), events[|events| - 1], i)
  }

  lemma GetIndexSameRecent(s: State, id: int, create: bool)
    requires Shaped(s)
    ensures SameRecent(s, GetIndex(s, id, create).0)
  {
  }

  /** A packet enters its number at most at its own slot. */
  lemma PutRecent(s: State, p: Pack)
    requires Inv(s) && PackOk(p)
    ensures
      var (t, j) := GetIndex(s, Device(p), true);
      var u := PutMix(s, p).0;
      if j < 0 || p.seqno in t.queues[j].recent then SameRecent(s, u)
      else SameRecent(t.(queues := t.queues[j := Enter(t.queues[j], p.seqno)]), u) && SameRecent(s, t)
  {
    GetIndexSameRecent(s, Device(p), true);
    var (t, j) := GetIndex(s, Device(p), true);
    hide GetIndex, Inv, Enter, Cleanup;
    if j >= 0 && p.seqno !in t.queues[j].recent {
      var u := t.(queues := t.queues[j := Enter(t.queues[j], p.seqno)]);
      CleanupSameRecent(u, 0);
      if |u.queues[j].fifo| < QUEUE_MAX {
        CleanupSameRecent(u.(queues := u.queues[j := u.queues[j].(fifo := u.queues[j].fifo + [p])]), 0);
      }
    }
  }

  lemma PlayRecent(s: State, p: Pack)
    requires Inv(s) && PackOk(p)
    ensures SameRecent(PutMix(s, p).0, Play(s, p).0)
  {
    PutKeeps(s, p);
    hide PutMix;
    if PutMix(s, p).1 == 1 {
      DrainSameRecent(PutMix(s, p).0);
    }
  }

  lemma DoRemembers(s: State, e: Event, i: nat, h: seq<nat>)
    requires Inv(s) && (e.Arrived? ==> PackOk(e.p)) && i < QUEUE_NUM && Remembers(s.queues[i], h)
    ensures Remembers(Do(s, e).queues[i], h + Accepts(s, e, i))
  {
    var t := Do(s, e);
    assert h + [] == h;
    match e
    case Opened(id) => GetIndexSameRecent(s, id, true);
    case Closed(id) => GetIndexSameRecent(s, id, false);
    case Arrived(p) =>
      PutRecent(s, p);
      PlayRecent(s, p);
      var (u, j) := GetIndex(s, Device(p), true);
      hide GetIndex, PutMix, Play, Inv, Enter;
      if Accepts(s, e, i) != [] {
        assert Remembers(u.queues[i], h);
        EnterRemembers(u.queues[i], h, p.seqno);
      }
  }

  lemma {:induction false} RunRemembers(autoMax: int, events: seq<Event>, i: nat)
    requires EventsOk(events) && i < QUEUE_NUM
    ensures Remembers(DoAll(autoMax, events).queues[i], Accepted(autoMax, events, i))
  {
    hide Do, Remembers, Accepts;
    if events == [] {
      StartRemembers();
    } else {
      var before := events[..|events| - 1];
      RunRemembers(autoMax, before, i);
      DoRemembers(DoAll(autoMax, before), events[|events| - 1], i, Accepted(autoMax, before, i));
    }
  }

  lemma StartRemembers()
    ensures Remembers(NewQueue(), [])
  {
  }

  /** Over any run, any five consecutive numbers a slot accepts are different. */
  lemma {:induction false} FiveInARowDiffer(autoMax: int, events: seq<Event>, i: nat)
    requires EventsOk(events) && i < QUEUE_NUM
    ensures
      var h := Accepted(autoMax, events, i);
      forall a, b :: 0 <= a < b < |h| && b - a <= RECENT_SIZE ==> h[a] != h[b]
  {
    hide DoAll, Do, GetIndex;
    if events != [] {
      var before, e := events[..|events| - 1], events[|events| - 1];
      var h, s := Accepted(autoMax, before, i), DoAll(autoMax, before);
      FiveInARowDiffer(autoMax, before, i);
      RunRemembers(autoMax, before, i);
      if Accepts(s, e, i) != [] {
        GetIndexSameRecent(s, Device(e.p), true);
        KnownIffRecent(s.queues[i], h, e.p.seqno);
        forall a, b | 0 <= a < b < |h| + 1 && b - a <= RECENT_SIZE
          ensures (h + [e.p.seqno])[a] != (h + [e.p.seqno])[b]
        {
          if b == |h| {
            assert Ago(h, b - 1 - a) == h[a];
          }
        }
      }
    }
  }

  /** Over any run a number is taken for a repeated one exactly when it is one of the last four the slot
      accepted, or is 0 and the slot accepted fewer than four. */
  lemma KnownExactly(autoMax: int, events: seq<Event>, i: nat, x: nat)
    requires EventsOk(events) && i < QUEUE_NUM
    ensures
      var h := Accepted(autoMax, events, i);
      x in DoAll(autoMax, events).queues[i].recent <==>
        (x == 0 && |h| < RECENT_SIZE) || exists b :: |h| - RECENT_SIZE <= b < |h| && 0 <= b && h[b] == x
  {
    RunRemembers(autoMax, events, i);
    hide DoAll, Accepted, Remembers;
    KnownIffRecent(DoAll(autoMax, events).queues[i], Accepted(autoMax, events, i), x);
    AgoIff(Accepted(autoMax, events, i), x);
  }

  lemma AgoIff(h: seq<nat>, x: nat)
    ensures (exists d :: 0 <= d < RECENT_SIZE && Ago(h, d) == x) <==>
              (x == 0 && |h| < RECENT_SIZE) || exists b :: |h| - RECENT_SIZE <= b < |h| && 0 <= b && h[b] == x
  {
    if d :| 0 <= d < RECENT_SIZE && Ago(h, d) == x {
      assert d < |h| ==> h[|h| - 1 - d] == x;
    }
    if b :| |h| - RECENT_SIZE <= b < |h| && 0 <= b && h[b] == x {
      assert Ago(h, |h| - 1 - b) == x;
    }
    if |h| < RECENT_SIZE {
      assert Ago(h, |h|) == 0;
    }
  }

  /** So a packet numbered 0 is dropped as repeated until its slot accepted four others, and from then on
      exactly while one of the last four accepted was numbered 0. */
  lemma ZeroNeedsFourBefore(autoMax: int, events: seq<Event>, i: nat)
    requires EventsOk(events) && i < QUEUE_NUM
    ensures
      var h := Accepted(autoMax, events, i);
      0 in DoAll(autoMax, events).queues[i].recent <==>
        |h| < RECENT_SIZE || exists b :: |h| - RECENT_SIZE <= b < |h| && h[b] == 0
  {
    KnownExactly(autoMax, events, i, 0);
    hide DoAll, Accepted;
  }

  // ---------- devices that leave ----------

  /** After mix_audio_close the device has no queue, and its packets are gone; nobody else loses anything. */
  lemma ClosedExactly(s: State, id: int)
    requires Inv(s) && id != 0
    ensures
      var t := Close(s, id);
      && (forall j :: 0 <= j < QUEUE_NUM ==>
            if s.queues[j].id == id then t.queues[j].id == 0 && t.queues[j].fifo == []
            else t.queues[j] == s.queues[j])
      && t.autoMax == s.autoMax && t.fastFwd == s.fastFwd
  {
    hide Heard;
    var i := FirstOf(s.queues, id, 0);
    if i == QUEUE_NUM {
      assert forall j :: 0 <= j < QUEUE_NUM ==> s.queues[j].id != id;
    }
  }

  // ---------- what becomes of a packet ----------

  /** A queue that is the device's own, or the first one that is nobody's, or none. */
  ghost predicate SlotOf(s: State, id: int, i: int)
    requires Shaped(s)
  {
    if id == 0 then i == -1
    else if exists j :: 0 <= j < QUEUE_NUM && s.queues[j].id == id then 0 <= i < QUEUE_NUM && s.queues[i].id == id
    else if exists j :: 0 <= j < QUEUE_NUM && s.queues[j].id == 0 then
      0 <= i < QUEUE_NUM && s.queues[i].id == 0 && forall j :: 0 <= j < i ==> s.queues[j].id != 0
    else i == -1
  }

  /** The queue that get_queue_index finds or takes, and that it changes nothing else. */
  lemma IndexExactly(s: State, id: int)
    requires Inv(s)
    ensures
      var (t, i) := GetIndex(s, id, true);
      && SlotOf(s, id, i) && Shaped(t) && t.autoMax == s.autoMax && t.fastFwd == s.fastFwd
      && (i < 0 ==> t == s)
      && (i >= 0 ==> t.queues == s.queues[i := s.queues[i].(id := id)])
  {
    if exists j :: 0 <= j < QUEUE_NUM && s.queues[j].id == id {
      assert FirstOf(s.queues, id, 0) < QUEUE_NUM;
    }
  }

  /** Nobody but the device is heard. */
  predicate Alone(s: State, id: int)
    requires Shaped(s)
  {
    forall j :: 0 <= j < QUEUE_NUM ==> s.queues[j].id == 0 || s.queues[j].id == id
  }

  lemma OnlyOneHeard(qs: seq<Queue>, i: nat)
    requires i < |qs| && qs[i].id != 0
    ensures Heard(qs) <= 1 <==> forall j :: 0 <= j < |qs| && j != i ==> qs[j].id == 0
  {
    var rest := qs[i := qs[i].(id := 0)];
    HeardUpdate(qs, i, rest[i]);
    if j :| 0 <= j < |qs| && j != i && qs[j].id != 0 {
      HeardUpdate(rest, j, qs[j].(id := 0));
      SumBounds(Ones(rest[j := qs[j].(id := 0)]), 0, 1);
    } else {
      SumBounds(Ones(rest), 0, 0);
    }
  }

  /** Whether the slot takes the number for a repeated one, by what it accepted before. */
  predicate Repeats(h: seq<nat>, x: nat) {
    (x == 0 && |h| < RECENT_SIZE) || exists b :: |h| - RECENT_SIZE <= b < |h| && 0 <= b && h[b] == x
  }

  /** Over any run put_mix_audio drops a packet exactly when it is no device's, there is no queue left for
      it, its number was among the last its slot accepted, or its queue is full beside another device; it
      hands a packet on to be played as it is exactly when its device is the only one; and queues it at the
      end of its device's own queue otherwise. */
  lemma PutExactly(autoMax: int, events: seq<Event>, p: Pack, i: int)
    requires EventsOk(events) && PackOk(p) && SlotOf(DoAll(autoMax, events), Device(p), i)
    ensures
      var s, r := DoAll(autoMax, events), PutMix(DoAll(autoMax, events), p).1;
      if i < 0 || Repeats(Accepted(autoMax, events, i), p.seqno) then r == -1
      else if Alone(s, Device(p)) then r == 0 && Play(s, p).1 == [p]
      else r == if |s.queues[i].fifo| == QUEUE_MAX then -1 else 1
  {
    var s := DoAll(autoMax, events);
    IndexExactly(s, Device(p));
    GetIndexKeeps(s, Device(p), true);
    var (t, k) := GetIndex(s, Device(p), true);
    SlotIsOne(s, Device(p), i, k);
    hide GetIndex, DoAll, Accepted, SlotOf;
    if i >= 0 {
      KnownExactly(autoMax, events, i, p.seqno);
      EnterSameDevice(t.queues[i], p.seqno);
      OnlyOneHeard(t.queues, i);
      AloneHere(s, t, Device(p), i);
      PutCode(s, p, t, i);
    }
  }

  /** The queues after a packet that is neither dropped for its number nor played at once: one more at the
      tail of its device's queue, or, when that is full or reaches the limit, all queues empty and the devices
      that had nothing waiting dropped. Without such a packet nothing is queued. */
  lemma PutQueues(autoMax: int, events: seq<Event>, p: Pack, i: int)
    requires EventsOk(events) && PackOk(p) && SlotOf(DoAll(autoMax, events), Device(p), i)
    ensures
      var s, t := DoAll(autoMax, events), PutMix(DoAll(autoMax, events), p).0;
      if i < 0 || Repeats(Accepted(autoMax, events, i), p.seqno) || Alone(s, Device(p)) then SameFifos(s, t)
      else
        var n := |s.queues[i].fifo|;
        if n < QUEUE_MAX && !(0 < s.autoMax <= n + 1) then Appended(s, t, i, p)
        else CleanedUp(s, t, i, Device(p)) && t.fastFwd == (s.fastFwd || n < QUEUE_MAX)
  {
    var s := DoAll(autoMax, events);
    IndexExactly(s, Device(p));
    GetIndexKeeps(s, Device(p), true);
    var (t, k) := GetIndex(s, Device(p), true);
    SlotIsOne(s, Device(p), i, k);
    hide GetIndex, DoAll, Accepted, SlotOf, SameFifos, Appended, CleanedUp;
    if i >= 0 {
      KnownExactly(autoMax, events, i, p.seqno);
      OnlyOneHeard(t.queues, i);
      AloneHere(s, t, Device(p), i);
      PutState(s, p, t, i);
    } else {
      assert SameFifos(s, s) by { SameAsItself(s); }
    }
  }

  predicate SameFifos(s: State, t: State)
    requires Shaped(s) && Shaped(t)
  {
    forall j :: 0 <= j < QUEUE_NUM ==> t.queues[j].fifo == s.queues[j].fifo
  }

  lemma SameAsItself(s: State)
    requires Shaped(s)
    ensures SameFifos(s, s)
  {
  }

  predicate Appended(s: State, t: State, i: nat, p: Pack)
    requires Shaped(s) && Shaped(t) && i < QUEUE_NUM
  {
    && (forall j :: 0 <= j < QUEUE_NUM ==>
          t.queues[j].fifo == s.queues[j].fifo + (if j == i then [p] else [])
          && t.queues[j].id == if j == i then Device(p) else s.queues[j].id)
    && t.fastFwd == s.fastFwd
  }

  predicate CleanedUp(s: State, t: State, i: nat, id: int)
    requires Shaped(s) && Shaped(t) && i < QUEUE_NUM
  {
    forall j :: 0 <= j < QUEUE_NUM ==>
      t.queues[j].fifo == []
      && t.queues[j].id == if j == i then id else if s.queues[j].fifo == [] then 0 else s.queues[j].id
  }

  lemma PutState(s: State, p: Pack, t: State, i: nat)
    requires Inv(s) && PackOk(p) && GetIndex(s, Device(p), true) == (t, i) && Inv(t) && i < QUEUE_NUM && Device(p) != 0
    requires t.queues == s.queues[i := s.queues[i].(id := Device(p))]
    requires t.autoMax == s.autoMax && t.fastFwd == s.fastFwd
    ensures
      var u, n := PutMix(s, p).0, |s.queues[i].fifo|;
      if p.seqno in t.queues[i].recent || t.count <= 1 then SameFifos(s, u)
      else if n < QUEUE_MAX && !(0 < s.autoMax <= n + 1) then Appended(s, u, i, p)
      else CleanedUp(s, u, i, Device(p)) && u.fastFwd == (s.fastFwd || n < QUEUE_MAX)
  {
    EnterSameDevice(t.queues[i], p.seqno);
    hide GetIndex, Enter, Cleanup, Heard;
    if p.seqno !in t.queues[i].recent && t.count > 1 {
      SameDeviceKeeps(t, i, Enter(t.queues[i], p.seqno));
      var u := t.(queues := t.queues[i := Enter(t.queues[i], p.seqno)]);
      PutEntered(s, u, i, p);
      hide Inv, Appended, CleanedUp;
    }
  }

  /** The same once the number is entered. */
  lemma PutEntered(s: State, u: State, i: nat, p: Pack)
    requires Shaped(s) && PackOk(p) && Inv(u) && i < QUEUE_NUM && Device(p) != 0 && u.fastFwd == s.fastFwd
    requires forall j :: 0 <= j < QUEUE_NUM ==>
               u.queues[j].fifo == s.queues[j].fifo && u.queues[j].id == if j == i then Device(p) else s.queues[j].id
    ensures
      if |u.queues[i].fifo| == QUEUE_MAX then
        CleanedUp(s, Cleanup(u, 0), i, Device(p)) && Cleanup(u, 0).fastFwd == s.fastFwd
      else
        var v := u.(queues := u.queues[i := u.queues[i].(fifo := u.queues[i].fifo + [p])]);
        Inv(v) && Appended(s, v, i, p) && CleanedUp(s, Cleanup(v, 0).(fastFwd := true), i, Device(p))
  {
    hide Cleanup, Heard;
    if |u.queues[i].fifo| == QUEUE_MAX {
      CleanupEmpties(u, 0);
    } else {
      var v := u.(queues := u.queues[i := u.queues[i].(fifo := u.queues[i].fifo + [p])]);
      SameDeviceKeeps(u, i, v.queues[i]);
      hide Inv;
      CleanupEmpties(v, 0);
    }
  }

  lemma DroppedOnce(s: State, i: nat)
    requires Inv(s) && i < QUEUE_NUM && s.queues[i].id != 0
    ensures
      var t := if s.queues[i].fifo == [] then Remove(s, i) else s.(queues := s.queues[i := s.queues[i].(fifo := [])]);
      Inv(t)
  {
    hide Heard;
    if s.queues[i].fifo == [] {
      RemoveKeeps(s, i);
    } else {
      SameDeviceKeeps(s, i, s.queues[i].(fifo := []));
    }
  }

  /** cleanup_queues leaves no packet and drops exactly the devices that had none. */
  lemma {:induction false} CleanupEmpties(s: State, i: nat)
    requires Inv(s) && i <= QUEUE_NUM
    ensures forall j :: i <= j < QUEUE_NUM ==> Cleanup(s, i).queues[j].fifo == []
    ensures forall j :: 0 <= j < i ==> Cleanup(s, i).queues[j] == s.queues[j]
    ensures forall j :: i <= j < QUEUE_NUM ==>
              Cleanup(s, i).queues[j].id == if s.queues[j].fifo == [] then 0 else s.queues[j].id
    ensures Cleanup(s, i).fastFwd == s.fastFwd
    decreases QUEUE_NUM - i
  {
    if i < QUEUE_NUM {
      var t :=
        if s.queues[i].id == 0 then s
        else if s.queues[i].fifo == [] then Remove(s, i)
        else s.(queues := s.queues[i := s.queues[i].(fifo := [])]);
      assert s.queues[i].id == 0 ==> s.queues[i].fifo == [];
      if s.queues[i].id != 0 {
        DroppedOnce(s, i);
      }
      hide Inv;
      CleanupEmpties(t, i + 1);
    }
  }

  lemma SlotIsOne(s: State, id: int, i: int, k: int)
    requires Inv(s) && SlotOf(s, id, i) && SlotOf(s, id, k)
    ensures i == k
  {
    hide Heard;
  }

  lemma AloneHere(s: State, t: State, id: int, i: nat)
    requires Inv(s) && Inv(t) && id != 0 && i < QUEUE_NUM && t.queues == s.queues[i := s.queues[i].(id := id)]
    requires s.queues[i].id == id || s.queues[i].id == 0
    ensures Alone(s, id) <==> forall j :: 0 <= j < QUEUE_NUM && j != i ==> t.queues[j].id == 0
  {
    hide Heard;
    forall j | 0 <= j < QUEUE_NUM && j != i ensures t.queues[j] == s.queues[j] && t.queues[j].id != id {
      assert t.queues[if i < j then i else j].id != t.queues[if i < j then j else i].id;
    }
  }

  lemma PutCode(s: State, p: Pack, t: State, i: nat)
    requires Inv(s) && PackOk(p) && GetIndex(s, Device(p), true) == (t, i) && Inv(t) && i < QUEUE_NUM
    ensures
      var r := PutMix(s, p).1;
      if p.seqno in t.queues[i].recent then r == -1
      else if t.count <= 1 then r == 0 && Play(s, p).1 == [p]
      else r == if |t.queues[i].fifo| == QUEUE_MAX then -1 else 1
  {
    EnterSameDevice(t.queues[i], p.seqno);
    hide GetIndex, Enter, Cleanup, Inv;
  }

  // ---------- catching up ----------

  /** When a packet starts the catching up, nothing is left to catch up with. */
  lemma FastForwardIsEmpty(s: State, p: Pack)
    requires Inv(s) && PackOk(p) && !s.fastFwd && PutMix(s, p).0.fastFwd
    ensures PutMix(s, p).1 == 1
    ensures forall j :: 0 <= j < QUEUE_NUM ==> PutMix(s, p).0.queues[j].fifo == []
    ensures exists j :: 0 <= j < QUEUE_NUM && PutMix(s, p).0.queues[j].id != 0
  {
    GetIndexKeeps(s, Device(p), true);
    var (t, i) := GetIndex(s, Device(p), true);
    assert t.fastFwd == s.fastFwd;
    hide GetIndex, Heard, Enter, Cleanup;
    if i >= 0 && p.seqno !in t.queues[i].recent {
      var u := t.(queues := t.queues[i := Enter(t.queues[i], p.seqno)]);
      EnterSameDevice(t.queues[i], p.seqno);
      SameDeviceKeeps(t, i, Enter(t.queues[i], p.seqno));
      if u.count > 1 {
        if |u.queues[i].fifo| == QUEUE_MAX {
          CleanupEmpties(u, 0);
        } else {
          var v := u.(queues := u.queues[i := u.queues[i].(fifo := u.queues[i].fifo + [p])]);
          SameDeviceKeeps(u, i, v.queues[i]);
          CleanupEmpties(v, 0);
          assert v.queues[i].fifo != [];
          assert Cleanup(v, 0).queues[i].id != 0;
        }
      }
    }
  }

  lemma EnterSameDevice(q: Queue, seqno: nat)
    requires QueueOk(q)
    ensures Enter(q, seqno).id == q.id && Enter(q, seqno).fifo == q.fifo
  {
  }

  lemma EmptyDrain(s: State)
    requires Inv(s) && (forall j :: 0 <= j < QUEUE_NUM ==> s.queues[j].fifo == [])
    requires exists j :: 0 <= j < QUEUE_NUM && s.queues[j].id != 0
    ensures Drain(s).1 == [] && !Drain(s).0.fastFwd
  {
    var j :| 0 <= j < QUEUE_NUM && s.queues[j].id != 0;
    HeardUpdate(s.queues, j, s.queues[j].(id := 0));
    SumBounds(Ones(s.queues[j := s.queues[j].(id := 0)]), 0, 1);
    hide Heard;
    assert !Ready(s.queues);
  }

  lemma {:induction false} DrainStaysSlow(s: State)
    requires Inv(s) && !s.fastFwd
    ensures !Drain(s).0.fastFwd
    decreases Total(s.queues)
  {
    DrainStep(s);
    if GetMix(s).1.Some? {
      GetShrinks(s);
      assert !GetMix(s).0.fastFwd;
      hide GetMix, Drain, Inv, Total;
      DrainStaysSlow(GetMix(s).0);
    }
  }

  /** The fast-forward state never comes to anything: it begins by emptying every queue, so the playing
      loop that follows mixes nothing in it and ends it. */
  lemma {:induction false} NeverFastForwards(autoMax: int, events: seq<Event>)
    requires EventsOk(events)
    ensures !DoAll(autoMax, events).fastFwd
    ensures forall p :: PackOk(p) && PutMix(DoAll(autoMax, events), p).0.fastFwd ==>
              Play(DoAll(autoMax, events), p).1 == []
  {
    if events != [] {
      var s, e := DoAll(autoMax, events[..|events| - 1]), events[|events| - 1];
      NeverFastForwards(autoMax, events[..|events| - 1]);
      hide DoAll, Inv, GetIndex;
      match e
      case Opened(id) => IndexSlow(s, id, true);
      case Closed(id) => IndexSlow(s, id, false);
      case Arrived(p) => PlayStaysSlow(s, p);
    }
    var t := DoAll(autoMax, events);
    forall p | PackOk(p) && PutMix(t, p).0.fastFwd ensures Play(t, p).1 == [] {
      PlayStaysSlow(t, p);
    }
  }

  lemma IndexSlow(s: State, id: int, create: bool)
    requires Shaped(s)
    ensures GetIndex(s, id, create).0.fastFwd == s.fastFwd
  {
  }

  lemma PlayStaysSlow(s: State, p: Pack)
    requires Inv(s) && PackOk(p) && !s.fastFwd
    ensures !Play(s, p).0.fastFwd
    ensures PutMix(s, p).0.fastFwd ==> Play(s, p).1 == []
  {
    PutKeeps(s, p);
    var t := PutMix(s, p).0;
    if t.fastFwd {
      FastForwardIsEmpty(s, p);
      hide PutMix;
      EmptyDrain(t);
    } else {
      hide PutMix;
      if PutMix(s, p).1 == 1 {
        DrainStaysSlow(t);
      }
    }
  }
}
