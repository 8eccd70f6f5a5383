/** include/cfifo.h: a circular fifo whose size is a power of two.

    The source masks an index with size-1; for a power of two that is the remainder by size. */
module Cfifo {

  /** x & (size-1), for the values that the source masks: all are below 2*size. */
  function Masked(x: nat, size: nat): (r: nat)
    requires x < 2 * size
    ensures r < size
  {
    if x < size then x else x - size
  }

  function Next(i: nat, size: nat): (r: nat)
    requires i < size
    ensures r < size
  {
    Masked(i + 1, size)
  }

  /** The slot that the k-th put since the start uses. */
  function Slot(k: nat, size: nat): (r: nat)
    requires size > 0
    ensures r < size
  {
    if k == 0 then 0 else Next(Slot(k - 1, size), size)
  }

  lemma {:induction false} SlotAhead(k: nat, d: nat, size: nat)
    requires d < size
    ensures Slot(k + d, size) == Masked(Slot(k, size) + d, size)
  {
    if d > 0 {
      SlotAhead(k, d - 1, size);
      assert Slot(k + d, size) == Next(Slot(k + d - 1, size), size);
    }
  }

  /** Positions less than size apart share a slot only when they are equal. */
  lemma SlotsDiffer(a: nat, b: nat, size: nat)
    requires a < b < a + size
    ensures Slot(a, size) != Slot(b, size)
  {
    SlotAhead(a, b - a, size);
  }

  class Fifo<T(0)> {
    var inn: nat
    var out: nat
    const size: nat
    const data: array<T>

    ghost predicate Valid()
      reads this
    {
      1 <= size == data.Length && inn < size && out < size
    }

    /** The queued values, oldest first. */
    ghost function Contents(): (c: seq<T>)
      requires Valid()
      reads this, data
      ensures |c| < size
    {
      if out <= inn then data[out..inn] else data[out..] + data[..inn]
    }

    /** cfifo_init with 2^order slots. */
    constructor (order: nat)
      ensures Valid() && fresh(data) && size == Pow2(order) && Contents() == []
    {
      size := Pow2(order);
      data := new T[Pow2(order)];
      inn, out := 0, 0;
    }

    /** cfifo_len */
    method Len() returns (n: nat)
      requires Valid()
      ensures n == |Contents()|
    {
      n := Masked(inn + size - out, size);
    }

    /** cfifo_full: true exactly when size-1 values are queued. */
    method Full() returns (r: bool)
      requires Valid()
      ensures r <==> |Contents()| == size - 1
    {
      r := Next(inn, size) == out;
    }

    /** cfifo_empty */
    method Empty() returns (r: bool)
      requires Valid()
      ensures r <==> Contents() == []
    {
      r := inn == out;
    }

    /** cfifo_clear */
    method Clear()
      requires Valid()
      modifies this`out
      ensures Valid() && Contents() == []
    {
      out := inn;
    }

    /** Fill the slot named by cfifo_get_in, then cfifo_in. Nothing checks for a full ring: a put
        on one wraps it round to empty. No slot but the one at `inn` changes. */
    method Put(x: T)
      requires Valid()
      modifies this`inn, data
      ensures Valid() && inn == Next(old(inn), size)
      ensures data[old(inn)] == x
      ensures forall k :: 0 <= k < size && k != old(inn) ==> data[k] == old(data[k])
      ensures Contents() == if |old(Contents())| < size - 1 then old(Contents()) + [x] else []
    {
      ghost var was := Contents();
      data[inn] := x;
      inn := Next(inn, size);
    }

    /** cfifo_get_out on a fifo that is not empty */
    method Front() returns (x: T)
      requires Valid() && Contents() != []
      ensures x == Contents()[0]
    {
      x := data[out];
    }

    /** cfifo_get_out, then cfifo_out: nonzero when empty, else the slot that held the oldest value. */
    method Out() returns (failed: bool, slot: nat)
      requires Valid()
      modifies this`out
      ensures Valid() && slot == old(out)
      ensures failed <==> old(Contents()) == []
      ensures failed ==> Contents() == []
      ensures !failed ==> slot != inn && data[slot] == old(Contents())[0] && Contents() == old(Contents())[1..]
    {
      slot := out;
      failed := inn == out;
      if !failed {
        out := Next(out, size);
      }
    }
  }

  function Pow2(n: nat): (r: nat)
    ensures r >= 1
  {
    if n == 0 then 1 else 2 * Pow2(n - 1)
  }

  /** A slot just taken out still holds its value after m more puts exactly when m does not exceed
      the free room there was; there is always room for one, even when the ring was full. */
  lemma TakenSlotSurvives(front: nat, len: nat, m: nat, size: nat)
    requires 1 <= len < size
    ensures (forall p :: front + len <= p < front + len + m ==> Slot(p, size) != Slot(front, size)) <==> m <= size - len
    ensures 1 <= size - len
  {
    if m <= size - len {
      forall p | front + len <= p < front + len + m ensures Slot(p, size) != Slot(front, size) {
        SlotsDiffer(front, p, size);
      }
    } else {
      SlotAhead(front, size - 1, size);
      assert Slot(front + size, size) == Next(Slot(front + size - 1, size), size);
    }
  }
}

/** The same fifo used by one writer and one reader without a lock, one step per access. */
module FifoInterleaved {
  import opened Cfifo

  /** The writer of serv/tag.c: test for full, fill the slot, then publish it. */
  datatype WriterPc<T> = Idle | Fill(v: T) | Publish(v: T)

  /** The reader: test for empty, read the slot, wipe it, then give it back. */
  datatype ReaderPc<T> = Look | Read | Wipe(v: T) | Release(v: T)

  /** `data` holds None where the reader has wiped a slot; sent and received are the histories. */
  datatype Cell<T> = Wiped | Holds(v: T)

  datatype State<T> = State(
    size: nat, inn: nat, out: nat, data: seq<Cell<T>>,
    writer: WriterPc<T>, reader: ReaderPc<T>,
    sent: seq<T>, received: seq<T>)

  datatype Step<T> = Offer(v: T) | Write | Take

  function Init<T>(size: nat): State<T> {
    State(size, 0, 0, seq(size, _ => Wiped), Idle, Look, [], [])
  }

  /** Offer tests cfifo_full and drops the value when it is; Write does the writer's next store. */
  predicate Enabled<T>(s: State<T>, step: Step<T>) {
    match step
    case Offer(_) => s.writer.Idle?
    case Write => !s.writer.Idle?
    case Take => true
  }

  predicate Shaped<T>(s: State<T>) {
    s.inn < s.size && s.out < s.size && |s.data| == s.size
  }

  function Apply<T>(s: State<T>, step: Step<T>): State<T>
    requires Shaped(s) && Enabled(s, step)
  {
    match step
    case Offer(v) => if Next(s.inn, s.size) == s.out then s else s.(writer := Fill(v))
    case Write =>
      (match s.writer
       case Fill(v) => s.(data := s.data[s.inn := Holds(v)], writer := Publish(v))
       case Publish(v) => s.(inn := Next(s.inn, s.size), writer := Idle, sent := s.sent + [v]))
    case Take =>
      match s.reader
      case Look => if s.out == s.inn then s else s.(reader := Read)
      case Read => if s.data[s.out].Wiped? then s else s.(reader := Wipe(s.data[s.out].v))
      case Wipe(v) => s.(data := s.data[s.out := Wiped], reader := Release(v))
      case Release(v) => s.(out := Next(s.out, s.size), reader := Look, received := s.received + [v])
  }

  predicate Run<T(==)>(s: State<T>, steps: seq<Step<T>>, t: State<T>)
    decreases |steps|
  {
    if steps == [] then s == t
    else Shaped(s) && Enabled(s, steps[0]) && Run(Apply(s, steps[0]), steps[1..], t)
  }

  /** The bounded queue that the interleaved fifo implements. */
  function Queue<T>(s: State<T>): seq<T>
    requires |s.received| <= |s.sent|
  {
    s.sent[|s.received|..]
  }

  ghost predicate Inv<T(!new)>(s: State<T>) {
    var w, r := |s.sent|, |s.received|;
    && 2 <= s.size == |s.data|
    && r <= w < r + s.size
    && s.inn == Slot(w, s.size) && s.out == Slot(r, s.size)
    && s.received == s.sent[..r]
    && (!s.writer.Idle? ==> w + 1 < r + s.size)
    && (s.writer.Publish? ==> s.data[s.inn] == Holds(s.writer.v))
    && (!s.reader.Look? ==> r < w)
    && (s.reader.Wipe? || s.reader.Release? ==> s.reader.v == s.sent[r])
    && (forall k :: r <= k < w && !(k == r && s.reader.Release?) ==> s.data[Slot(k, s.size)] == Holds(s.sent[k]))
  }

  /** Where the reader's and the writer's slot lie among the queued ones. */
  lemma QueuedSlots<T(!new)>(s: State<T>)
    requires Inv(s)
    ensures |s.sent| + 1 == |s.received| + s.size ==> Next(s.inn, s.size) == s.out
    ensures forall k :: |s.received| <= k < |s.sent| ==> Slot(k, s.size) != s.inn
    ensures forall k :: |s.received| < k < |s.sent| ==> Slot(k, s.size) != s.out
    ensures |s.received| < |s.sent| ==> s.inn != s.out
  {
    var w, r := |s.sent|, |s.received|;
    SlotAhead(r, w - r, s.size);
    forall k | r <= k < w
      ensures Slot(k, s.size) != s.inn
      ensures k != r ==> Slot(k, s.size) != s.out
    {
      SlotsDiffer(k, w, s.size);
      if k != r {
        SlotsDiffer(r, k, s.size);
      }
    }
  }

  lemma WriterKeepsInv<T(!new)>(s: State<T>, step: Step<T>)
    requires Inv(s) && Enabled(s, step) && !step.Take?
    ensures Inv(Apply(s, step))
  {
    QueuedSlots(s);
    assert Slot(|s.sent| + 1, s.size) == Next(Slot(|s.sent|, s.size), s.size);
  }

  lemma ReaderKeepsInv<T(!new)>(s: State<T>)
    requires Inv(s)
    ensures Inv(Apply(s, Take))
  {
    QueuedSlots(s);
    assert Slot(|s.received| + 1, s.size) == Next(Slot(|s.received|, s.size), s.size);
  }

  lemma StepKeepsInv<T(!new)>(s: State<T>, step: Step<T>)
    requires Inv(s) && Enabled(s, step)
    ensures Inv(Apply(s, step))
  {
    if step.Take? {
      ReaderKeepsInv(s);
    } else {
      WriterKeepsInv(s, step);
    }
  }

  /** Data-race freedom: when the writer is about to fill a slot and the reader about to read or
      wipe one, they are different slots. */
  lemma NoSharedSlot<T(!new)>(size: nat, steps: seq<Step<T>>, t: State<T>)
    requires 2 <= size && Run(Init(size), steps, t)
    requires t.writer.Fill? && !t.reader.Look?
    ensures t.inn != t.out
  {
    RunKeepsInv(Init(size), steps, t);
    SlotsDiffer(|t.received|, |t.sent|, t.size);
  }

  lemma {:induction false} RunKeepsInv<T(!new)>(s: State<T>, steps: seq<Step<T>>, t: State<T>)
    requires Inv(s) && Run(s, steps, t)
    ensures Inv(t) && t.size == s.size
    decreases |steps|
  {
    if steps != [] {
      StepKeepsInv(s, steps[0]);
      RunKeepsInv(Apply(s, steps[0]), steps[1..], t);
    }
  }

  /** Values come out in order and exactly once, at most size-1 of them in between, and the reader
      never meets a wiped slot. */
  lemma InOrderExactlyOnce<T(!new)>(size: nat, steps: seq<Step<T>>, t: State<T>)
    requires 2 <= size && Run(Init(size), steps, t)
    ensures |t.received| <= |t.sent| && t.received == t.sent[..|t.received|]
    ensures |t.sent| - |t.received| <= size - 1
    ensures t.reader.Read? ==> |t.received| < |t.sent| && Shaped(t) && t.data[t.out] == Holds(t.sent[|t.received|])
  {
    RunKeepsInv(Init(size), steps, t);
  }

  /** Refinement: each access leaves the bounded queue alone, or appends to a queue with room, or
      takes its head and hands exactly that value to the reader. */
  lemma RefinesBoundedQueue<T(!new)>(size: nat, steps: seq<Step<T>>, s: State<T>, step: Step<T>)
    requires 2 <= size && Run(Init(size), steps, s) && Enabled(s, step)
    ensures Shaped(s) && |s.received| <= |s.sent| && |Apply(s, step).received| <= |Apply(s, step).sent|
    ensures
      var s' := Apply(s, step);
      || (Queue(s') == Queue(s) && s'.received == s.received)
      || (step.Write? && s.writer.Publish? && |Queue(s)| < size - 1
          && Queue(s') == Queue(s) + [s.writer.v] && s'.received == s.received)
      || (step.Take? && Queue(s) != [] && Queue(s') == Queue(s)[1..] && s'.received == s.received + [Queue(s)[0]])
  {
    RunKeepsInv(Init(size), steps, s);
    StepKeepsInv(s, step);
  }

  /** What each access does, said on the bounded queue: an offer is dropped exactly while the queue is full, is
      otherwise stored and then published at its tail; a look goes on exactly while something is queued, the
      head is read, wiped and then given back. */
  lemma EachAccess<T(!new)>(size: nat, steps: seq<Step<T>>, s: State<T>, step: Step<T>)
    requires 2 <= size && Run(Init(size), steps, s) && Enabled(s, step)
    ensures Shaped(s) && |s.received| <= |s.sent| && |Apply(s, step).received| <= |Apply(s, step).sent|
    ensures
      var s', q := Apply(s, step), Queue(s);
      match step
      case Offer(v) =>
        Queue(s') == q && s'.reader == s.reader && s'.writer == if |q| == size - 1 then Idle else Fill(v)
      case Write =>
        s'.reader == s.reader
        && (s.writer.Fill? ==> Queue(s') == q && s'.writer == Publish(s.writer.v))
        && (s.writer.Publish? ==> Queue(s') == q + [s.writer.v] && s'.writer == Idle)
      case Take =>
        s'.writer == s.writer
        && (s.reader.Look? ==> Queue(s') == q && s'.reader == if q == [] then Look else Read)
        && (s.reader.Read? ==> Queue(s') == q != [] && s'.reader == Wipe(q[0]))
        && (s.reader.Wipe? ==> Queue(s') == q != [] && s'.reader == Release(q[0]))
        && (s.reader.Release? ==>
              q != [] && Queue(s') == q[1..] && s'.received == s.received + [q[0]] && s'.reader == Look)
  {
    RunKeepsInv(Init(size), steps, s);
    StepKeepsInv(s, step);
    QueuedSlots(s);
    FullIsFull(s);
  }

  lemma FullIsFull<T(!new)>(s: State<T>)
    requires Inv(s)
    ensures Next(s.inn, s.size) == s.out <==> |s.sent| - |s.received| == s.size - 1
    ensures s.inn == s.out <==> |s.sent| == |s.received|
  {
    QueuedSlots(s);
    var w, r := |s.sent|, |s.received|;
    if w + 1 < r + s.size {
      SlotsDiffer(r, w + 1, s.size);
    }
  }
}
