/** The eight mixing slots of a tag (serv/tag.c) and the table of net mixer addresses that is kept in
    step with them (serv/net_mixer.c). Devices are numbers, their fields arrays over those numbers. */
module MixSlots {
  import opened Seqs

  const MAX_MIX := 8
  const NOBODY := -1
  const HUNG := 300

  /** `ref` is mix_ref; `res` is 1 + the index of the address a device has, or 0. */
  datatype State = State(
    slots: seq<int>, count: int, ref: nat,
    mixbit: seq<nat>, timeouts: seq<nat>, res: seq<nat>, avail: seq<bool>)

  /** 1 << i */
  function Bit(i: nat): (b: nat)
    ensures b > 0
  {
    if i == 0 then 1 else 2 * Bit(i - 1)
  }

  /** The first place from k on that holds x, or the length. */
  function First<T(==)>(xs: seq<T>, x: T, k: nat): (r: nat)
    requires k <= |xs|
    ensures k <= r <= |xs| && (r < |xs| ==> xs[r] == x)
    ensures forall j :: k <= j < r ==> xs[j] != x
    decreases |xs| - k
  {
    if k == |xs| || xs[k] == x then k else First(xs, x, k + 1)
  }

  /** The first occupied slot from j on that is not slot i, or the length. */
  function Another(slots: seq<int>, i: nat, j: nat): (r: nat)
    requires j <= |slots|
    ensures j <= r <= |slots| && (r < |slots| ==> r != i && slots[r] != NOBODY)
    ensures forall k :: j <= k < r ==> k == i || slots[k] == NOBODY
    decreases |slots| - j
  {
    if j == |slots| || (j != i && slots[j] != NOBODY) then j else Another(slots, i, j + 1)
  }

  predicate Shaped(s: State) {
    && |s.slots| == MAX_MIX && |s.avail| == MAX_MIX && s.ref < MAX_MIX
    && |s.mixbit| == |s.timeouts| == |s.res|
    && forall i :: 0 <= i < MAX_MIX ==> NOBODY <= s.slots[i] < |s.mixbit|
  }

  /** MIX_OPEN_DEV: the soft mixer has no open_dev; the net mixer takes the first free address. */
  function OpenDev(s: State, d: nat, net: bool): State
    requires Shaped(s) && d < |s.res|
  {
    var a := First(s.avail, true, 0);
    if !net || a == MAX_MIX then s else s.(avail := s.avail[a := false], res := s.res[d := a + 1])
  }

  function CloseDev(s: State, d: nat, net: bool): State
    requires Shaped(s) && d < |s.res|
  {
    if net && 0 < s.res[d] <= MAX_MIX then s.(avail := s.avail[s.res[d] - 1 := true], res := s.res[d := 0])
    else s
  }

  function Seat(s: State, d: nat, i: nat): State
    requires Shaped(s) && d < |s.res| && i < MAX_MIX
  {
    var slots := s.slots[i := d];
    s.(slots := slots, mixbit := s.mixbit[d := Bit(i)], timeouts := s.timeouts[d := 0],
       ref := if slots[s.ref] == NOBODY then i else s.ref, count := s.count + 1)
  }

  /** tag_add_outstanding */
  function Add(s: State, d: nat, net: bool): State
    requires Shaped(s) && d < |s.res|
  {
    var i := First(s.slots, NOBODY, 0);
    if s.mixbit[d] != 0 || i == MAX_MIX then s else OpenDev(Seat(s, d, i), d, net)
  }

  function Unseat(s: State, d: nat): State
    requires Shaped(s) && d < |s.res|
  {
    var i := First(s.slots, d, 0);
    if i == MAX_MIX then s.(mixbit := s.mixbit[d := 0])
    else
      var j := Another(s.slots, i, 0);
      s.(slots := s.slots[i := NOBODY], mixbit := s.mixbit[d := 0], count := s.count - 1,
         ref := if s.ref == i && j < MAX_MIX then j else s.ref)
  }

  /** tag_rm_outstanding */
  function Rm(s: State, d: nat, net: bool): State
    requires Shaped(s) && d < |s.res|
  {
    CloseDev(Unseat(s, d), d, net)
  }

  function Ticked(s: State, d: nat, ticks: nat): (t: State)
    requires Shaped(s) && d < |s.res|
    ensures Shaped(t) && |t.res| == |s.res| && t.timeouts[d] == ticks
  {
    s.(timeouts := s.timeouts[d := ticks])
  }

  /** One slot's round of tag_update_dev_timeouts; empty[d] says that d's queue is empty. */
  function Watch(s: State, empty: seq<bool>, i: nat, net: bool): (r: State)
    requires Shaped(s) && |empty| == |s.res| && i < MAX_MIX
    ensures Shaped(r) && |r.res| == |s.res|
  {
    var d := s.slots[i];
    if d == NOBODY then s
    else if !empty[d] then Ticked(s, d, 0)
    else if s.timeouts[d] + 1 > HUNG then Rm(Ticked(s, d, s.timeouts[d] + 1), d, net)
    else Ticked(s, d, s.timeouts[d] + 1)
  }

  /** tag_update_dev_timeouts from slot i on. */
  function WatchFrom(s: State, empty: seq<bool>, i: nat, net: bool): (r: State)
    requires Shaped(s) && |empty| == |s.res| && i <= MAX_MIX
    ensures Shaped(r) && |r.res| == |s.res|
    decreases MAX_MIX - i
  {
    if i == MAX_MIX then s else WatchFrom(Watch(s, empty, i, net), empty, i + 1, net)
  }

  // ---------- the code ----------

  /** A tag and the fields of its devices. */
  class Tag {
    const net: bool
    const mixDevs: array<int>
    var mixCount: int
    var mixRef: nat
    const mixbit: array<nat>
    const timeouts: array<nat>
    const res: array<nat>
    const avail: array<bool>

    ghost predicate Valid()
      reads this, mixDevs
    {
      && mixDevs.Length == MAX_MIX && avail.Length == MAX_MIX && mixRef < MAX_MIX
      && mixbit.Length == timeouts.Length == res.Length
      && mixbit != timeouts && mixbit != res && timeouts != res
      && forall i :: 0 <= i < MAX_MIX ==> NOBODY <= mixDevs[i] < mixbit.Length
    }

    ghost function View(): State
      reads this, mixDevs, mixbit, timeouts, res, avail
    {
      State(mixDevs[..], mixCount, mixRef, mixbit[..], timeouts[..], res[..], avail[..])
    }

    constructor (devices: nat, net: bool)
      ensures Valid() && this.net == net
      ensures View() == Init(devices)
      ensures fresh(mixDevs) && fresh(mixbit) && fresh(timeouts) && fresh(res) && fresh(avail)
    {
      this.net := net;
      mixDevs := new int[MAX_MIX](_ => NOBODY);
      mixCount, mixRef := 0, 0;
      mixbit := new nat[devices](_ => 0);
      timeouts := new nat[devices](_ => 0);
      res := new nat[devices](_ => 0);
      avail := new bool[MAX_MIX](_ => true);
    }

    /** netmx_open_dev, behind MIX_OPEN_DEV */
    method MixOpenDev(d: nat)
      requires Valid() && d < res.Length
      modifies res, avail
      ensures Valid() && View() == OpenDev(old(View()), d, net)
    {
      if net {
        var i := 0;
        while i < MAX_MIX
          invariant i <= MAX_MIX && res[..] == old(res[..]) && avail[..] == old(avail[..])
          invariant First(old(avail[..]), true, 0) == First(old(avail[..]), true, i)
        {
          if avail[i] {
            avail[i] := false;
            res[d] := i + 1;
            return;
          }
          i := i + 1;
        }
      }
    }

    /** netmx_close_dev, behind MIX_CLOSE_DEV */
    method MixCloseDev(d: nat)
      requires Valid() && d < res.Length
      modifies res, avail
      ensures Valid() && View() == CloseDev(old(View()), d, net)
    {
      if net && res[d] > 0 && res[d] <= MAX_MIX {
        avail[res[d] - 1] := true;
        res[d] := 0;
      }
    }

    method AddOutstanding(d: nat)
      requires Valid() && d < res.Length
      modifies this`mixCount, this`mixRef, mixDevs, mixbit, timeouts, res, avail
      ensures Valid() && View() == Add(old(View()), d, net)
    {
      if mixbit[d] != 0 {
        return;
      }
      var i := 0;
      while i < MAX_MIX
        invariant i <= MAX_MIX && Valid() && View() == old(View())
        invariant First(old(mixDevs[..]), NOBODY, 0) == First(old(mixDevs[..]), NOBODY, i)
      {
        if mixDevs[i] == NOBODY {
          mixDevs[i] := d;
          mixbit[d] := Bit(i);
          timeouts[d] := 0;
          if mixDevs[mixRef] == NOBODY {
            mixRef := i;
          }
          mixCount := mixCount + 1;
          assert View() == Seat(old(View()), d, i);
          MixOpenDev(d);
          return;
        }
        i := i + 1;
      }
    }

    /** The search for another reference, in tag_rm_outstanding. */
    method MoveReference(i: nat)
      requires Valid() && i < MAX_MIX
      modifies this`mixRef
      ensures Valid()
      ensures mixRef == var j := Another(mixDevs[..], i, 0);
                        if old(mixRef) == i && j < MAX_MIX then j else old(mixRef)
    {
      if mixRef == i {
        var j := 0;
        while j < MAX_MIX
          invariant j <= MAX_MIX && mixRef == old(mixRef)
          invariant Another(mixDevs[..], i, 0) == Another(mixDevs[..], i, j)
        {
          if j != i && mixDevs[j] != NOBODY {
            mixRef := j;
            return;
          }
          j := j + 1;
        }
      }
    }

    method RmOutstanding(d: nat)
      requires Valid() && d < res.Length
      modifies this`mixCount, this`mixRef, mixDevs, mixbit, res, avail
      ensures Valid() && View() == Rm(old(View()), d, net)
    {
      var i := 0;
      while i < MAX_MIX
        invariant i <= MAX_MIX && Valid() && View() == old(View())
        invariant First(old(mixDevs[..]), d, 0) == First(old(mixDevs[..]), d, i)
      {
        if mixDevs[i] == d {
          MoveReference(i);
          mixDevs[i] := NOBODY;
          mixCount := mixCount - 1;
          break;
        }
        i := i + 1;
      }
      mixbit[d] := 0;
      assert View() == Unseat(old(View()), d);
      MixCloseDev(d);
    }

    /** The loop body of tag_update_dev_timeouts. */
    method WatchSlot(i: nat, empty: seq<bool>)
      requires Valid() && |empty| == res.Length && i < MAX_MIX
      modifies this`mixCount, this`mixRef, mixDevs, mixbit, timeouts, res, avail
      ensures Valid() && View() == Watch(old(View()), empty, i, net)
    {
      hide Rm;
      var d := mixDevs[i];
      if d != NOBODY {
        if empty[d] {
          timeouts[d] := timeouts[d] + 1;
          assert View() == Ticked(old(View()), d, timeouts[d]);
          if timeouts[d] > HUNG {
            RmOutstanding(d);
          }
        } else {
          timeouts[d] := 0;
        }
      }
    }

    method UpdateTimeouts(empty: seq<bool>)
      requires Valid() && |empty| == res.Length
      modifies this`mixCount, this`mixRef, mixDevs, mixbit, timeouts, res, avail
      ensures Valid() && View() == WatchFrom(old(View()), empty, 0, net)
    {
      hide Watch;
      for i := 0 to MAX_MIX
        invariant Valid()
        invariant WatchFrom(old(View()), empty, 0, net) == WatchFrom(View(), empty, i, net)
      {
        WatchSlot(i, empty);
      }
    }
  }

  // ---------- the invariant ----------

  function Ones(slots: seq<int>): seq<int> {
    seq(|slots|, i requires 0 <= i < |slots| => if slots[i] == NOBODY then 0 else 1)
  }

  function Occupied(slots: seq<int>): int {
    Sum(Ones(slots))
  }

  function Taken(avail: seq<bool>): seq<int> {
    seq(|avail|, i requires 0 <= i < |avail| => if avail[i] then 0 else 1)
  }

  function Busy(avail: seq<bool>): int {
    Sum(Taken(avail))
  }

  function Init(devices: nat): State {
    State(seq(MAX_MIX, _ => NOBODY), 0, 0, seq(devices, _ => 0), seq(devices, _ => 0), seq(devices, _ => 0),
          seq(MAX_MIX, _ => true))
  }

  /** Slots and mixbits name each other, and the count and the reference agree with the slots. */
  ghost predicate SlotsAgree(s: State) {
    && Shaped(s)
    && s.count == Occupied(s.slots)
    && (s.count > 0 ==> s.slots[s.ref] != NOBODY)
    && (forall i :: 0 <= i < MAX_MIX && s.slots[i] != NOBODY ==> s.mixbit[s.slots[i]] == Bit(i))
    && (forall d :: 0 <= d < |s.mixbit| && s.mixbit[d] != 0 ==> d in s.slots)
  }

  /** Exactly the seated devices have an address, each its own, and no other address is taken. */
  ghost predicate AddressesAgree(s: State, net: bool)
    requires Shaped(s)
  {
    && Busy(s.avail) == (if net then s.count else 0)
    && (forall d :: 0 <= d < |s.res| ==>
          s.res[d] <= MAX_MIX && (s.res[d] > 0 <==> net && s.mixbit[d] != 0))
    && (forall d :: 0 <= d < |s.res| && s.res[d] > 0 ==> !s.avail[s.res[d] - 1])
    && (forall d, e :: 0 <= d < e < |s.res| && s.res[d] > 0 ==> s.res[d] != s.res[e])
  }

  ghost predicate Inv(s: State, net: bool) {
    SlotsAgree(s) && AddressesAgree(s, net)
  }

  lemma BitsDiffer(i: nat, j: nat)
    requires i < j
    ensures Bit(i) < Bit(j)
  {
    if i + 1 < j {
      BitsDiffer(i, j - 1);
    }
  }

  /** A device sits in at most one slot. */
  lemma OneSeat(s: State, i: nat, j: nat)
    requires SlotsAgree(s) && i < j < MAX_MIX && s.slots[i] != NOBODY
    ensures s.slots[i] != s.slots[j]
  {
    BitsDiffer(i, j);
  }

  lemma OccupiedUpdate(slots: seq<int>, i: nat, x: int)
    requires i < |slots|
    ensures Occupied(slots[i := x]) ==
            Occupied(slots) - (if slots[i] == NOBODY then 0 else 1) + (if x == NOBODY then 0 else 1)
  {
    var one := if x == NOBODY then 0 else 1;
    assert Ones(slots[i := x]) == Ones(slots)[i := one];
    SumUpdate(Ones(slots), i, one);
  }

  lemma BusyUpdate(avail: seq<bool>, i: nat, free: bool)
    requires i < |avail|
    ensures Busy(avail[i := free]) == Busy(avail) - (if avail[i] then 0 else 1) + (if free then 0 else 1)
  {
    var one := if free then 0 else 1;
    assert Taken(avail[i := free]) == Taken(avail)[i := one];
    SumUpdate(Taken(avail), i, one);
  }

  /** The count says whether there is a free slot. */
  lemma CountSaysFull(s: State)
    requires SlotsAgree(s)
    ensures 0 <= s.count <= MAX_MIX
    ensures s.count == MAX_MIX <==> First(s.slots, NOBODY, 0) == MAX_MIX
    ensures s.count == 0 <==> forall i :: 0 <= i < MAX_MIX ==> s.slots[i] == NOBODY
  {
    SumBounds(Ones(s.slots), 0, 1);
    var i := First(s.slots, NOBODY, 0);
    if i == MAX_MIX {
      SumBounds(Ones(s.slots), 1, 1);
    } else {
      OccupiedUpdate(s.slots, i, 0);
      SumBounds(Ones(s.slots[i := 0]), 0, 1);
    }
    if forall k :: 0 <= k < MAX_MIX ==> s.slots[k] == NOBODY {
      SumBounds(Ones(s.slots), 0, 0);
    } else {
      var k :| 0 <= k < MAX_MIX && s.slots[k] != NOBODY;
      OccupiedUpdate(s.slots, k, NOBODY);
      SumBounds(Ones(s.slots[k := NOBODY]), 0, 1);
    }
  }

  lemma AddressLeft(avail: seq<bool>)
    requires |avail| == MAX_MIX && Busy(avail) < MAX_MIX
    ensures First(avail, true, 0) < MAX_MIX
  {
    if First(avail, true, 0) == MAX_MIX {
      SumBounds(Taken(avail), 1, 1);
    }
  }

  lemma SeatAgrees(s: State, d: nat, i: nat)
    requires SlotsAgree(s) && d < |s.mixbit| && s.mixbit[d] == 0 && i < MAX_MIX && s.slots[i] == NOBODY
    ensures SlotsAgree(Seat(s, d, i))
  {
    var t := Seat(s, d, i);
    OccupiedUpdate(s.slots, i, d);
    CountSaysFull(s);
    forall e | 0 <= e < |t.mixbit| && t.mixbit[e] != 0 ensures e in t.slots {
      if e == d {
        assert t.slots[i] == d;
      } else {
        var k :| 0 <= k < MAX_MIX && s.slots[k] == e;
        assert t.slots[k] == e;
      }
    }
  }

  lemma AddKeepsSlots(s: State, d: nat, net: bool)
    requires SlotsAgree(s) && d < |s.res|
    ensures SlotsAgree(Add(s, d, net))
  {
    var i := First(s.slots, NOBODY, 0);
    if s.mixbit[d] == 0 && i < MAX_MIX {
      SeatAgrees(s, d, i);
      hide SlotsAgree, Seat;
      SameSlotsAgree(Seat(s, d, i), Add(s, d, net));
    }
  }

  lemma AddKeepsInv(s: State, d: nat, net: bool)
    requires Inv(s, net) && d < |s.res|
    ensures Inv(Add(s, d, net), net)
  {
    AddKeepsSlots(s, d, net);
    CountSaysFull(s);
    hide SlotsAgree, AddressesAgree, Seat;
    var i := First(s.slots, NOBODY, 0);
    if s.mixbit[d] == 0 && i < MAX_MIX {
      OpenAgrees(s, d, i, net);
    }
  }

  lemma OpenAgrees(s: State, d: nat, i: nat, net: bool)
    requires Shaped(s) && AddressesAgree(s, net) && s.count < MAX_MIX
    requires d < |s.res| && i < MAX_MIX && s.mixbit[d] == 0
    ensures AddressesAgree(OpenDev(Seat(s, d, i), d, net), net)
  {
    hide Bit, Busy;
    if net {
      AddressLeft(s.avail);
      BusyUpdate(s.avail, First(s.avail, true, 0), false);
    }
  }

  lemma SameSlotsAgree(s: State, t: State)
    requires SlotsAgree(s) && Shaped(t)
    requires t.slots == s.slots && t.count == s.count && t.ref == s.ref && t.mixbit == s.mixbit
    ensures SlotsAgree(t)
  {
  }

  lemma UnseatAgrees(s: State, d: nat)
    requires SlotsAgree(s) && d < |s.mixbit|
    ensures SlotsAgree(Unseat(s, d))
    ensures Unseat(s, d).count == s.count - (if s.mixbit[d] != 0 then 1 else 0)
  {
    var i := First(s.slots, d, 0);
    var t := Unseat(s, d);
    if i < MAX_MIX {
      OccupiedUpdate(s.slots, i, NOBODY);
      forall k | 0 <= k < MAX_MIX && t.slots[k] != NOBODY
        ensures t.slots[k] == s.slots[k] != d
      {
        if k != i && s.slots[k] == d {
          OneSeat(s, if k < i then k else i, if k < i then i else k);
        }
      }
      UnseatKeepsReference(s, d);
    }
    forall e | 0 <= e < |t.mixbit| && t.mixbit[e] != 0 ensures e in t.slots {
      var k :| 0 <= k < MAX_MIX && s.slots[k] == e;
      assert t.slots[k] == e;
    }
  }

  lemma UnseatKeepsReference(s: State, d: nat)
    requires SlotsAgree(s) && d < |s.mixbit| && First(s.slots, d, 0) < MAX_MIX
    ensures Unseat(s, d).count > 0 ==> Unseat(s, d).slots[Unseat(s, d).ref] != NOBODY
  {
    var i := First(s.slots, d, 0);
    if s.ref == i && Another(s.slots, i, 0) == MAX_MIX {
      OccupiedUpdate(s.slots, i, NOBODY);
      SumBounds(Ones(s.slots[i := NOBODY]), 0, 0);
    }
  }

  lemma RmKeepsSlots(s: State, d: nat, net: bool)
    requires SlotsAgree(s) && d < |s.res|
    ensures SlotsAgree(Rm(s, d, net))
  {
    UnseatAgrees(s, d);
    hide SlotsAgree, Unseat;
    SameSlotsAgree(Unseat(s, d), Rm(s, d, net));
  }

  lemma RmKeepsInv(s: State, d: nat, net: bool)
    requires Inv(s, net) && d < |s.res|
    ensures Inv(Rm(s, d, net), net)
  {
    RmKeepsSlots(s, d, net);
    UnseatAgrees(s, d);
    CloseAgrees(s, d, net);
    hide SlotsAgree, AddressesAgree, Unseat;
  }

  lemma CloseAgrees(s: State, d: nat, net: bool)
    requires Shaped(s) && AddressesAgree(s, net) && d < |s.res|
    requires Unseat(s, d).count == s.count - (if s.mixbit[d] != 0 then 1 else 0)
    ensures AddressesAgree(CloseDev(Unseat(s, d), d, net), net)
  {
    hide Busy;
    if net && s.res[d] > 0 {
      BusyUpdate(s.avail, s.res[d] - 1, true);
    }
  }

  lemma TicksKeepInv(s: State, d: nat, ticks: nat, net: bool)
    requires Inv(s, net) && d < |s.res|
    ensures Inv(Ticked(s, d, ticks), net)
  {
    SameSlotsAgree(s, Ticked(s, d, ticks));
    hide SlotsAgree, Busy;
  }

  lemma WatchKeepsInv(s: State, empty: seq<bool>, i: nat, net: bool)
    requires Shaped(s) && Inv(s, net) && |empty| == |s.res| && i < MAX_MIX
    ensures Inv(Watch(s, empty, i, net), net)
  {
    hide Inv, Rm, Ticked;
    var d := s.slots[i];
    if d != NOBODY {
      if !empty[d] {
        TicksKeepInv(s, d, 0, net);
      } else {
        var t := Ticked(s, d, s.timeouts[d] + 1);
        TicksKeepInv(s, d, s.timeouts[d] + 1, net);
        if s.timeouts[d] + 1 > HUNG {
          RmKeepsInv(t, d, net);
        }
      }
    }
  }

  lemma {:induction false} WatchFromKeepsInv(s: State, empty: seq<bool>, i: nat, net: bool)
    requires Inv(s, net) && |empty| == |s.res| && i <= MAX_MIX
    ensures Inv(WatchFrom(s, empty, i, net), net)
    decreases MAX_MIX - i
  {
    assert Shaped(s);
    hide Inv, Watch;
    if i < MAX_MIX {
      WatchKeepsInv(s, empty, i, net);
      WatchFromKeepsInv(Watch(s, empty, i, net), empty, i + 1, net);
    }
  }

  // ---------- runs ----------

  datatype Call = Open(d: nat) | Close(d: nat) | Update(empty: seq<bool>)

  predicate Fits(c: Call, devices: nat) {
    match c
    case Open(d) => d < devices
    case Close(d) => d < devices
    case Update(empty) => |empty| == devices
  }

  function Do(s: State, c: Call, net: bool): (t: State)
    requires Shaped(s) && Fits(c, |s.res|)
    ensures Shaped(t) && |t.res| == |s.res|
  {
    match c
    case Open(d) => Add(s, d, net)
    case Close(d) => Rm(s, d, net)
    case Update(empty) => WatchFrom(s, empty, 0, net)
  }

  function DoAll(s: State, calls: seq<Call>, net: bool): (t: State)
    requires Shaped(s) && forall k :: 0 <= k < |calls| ==> Fits(calls[k], |s.res|)
    ensures Shaped(t) && |t.res| == |s.res|
    decreases |calls|
  {
    if calls == [] then s
    else Do(DoAll(s, calls[..|calls| - 1], net), calls[|calls| - 1], net)
  }

  lemma {:induction false} DoAllKeepsInv(s: State, calls: seq<Call>, net: bool)
    requires Inv(s, net) && forall k :: 0 <= k < |calls| ==> Fits(calls[k], |s.res|)
    ensures Inv(DoAll(s, calls, net), net)
    decreases |calls|
  {
    assert Shaped(s);
    hide Inv, Add, Rm, WatchFrom;
    if calls != [] {
      var t := DoAll(s, calls[..|calls| - 1], net);
      DoAllKeepsInv(s, calls[..|calls| - 1], net);
      match calls[|calls| - 1]
      case Open(d) => AddKeepsInv(t, d, net);
      case Close(d) => RmKeepsInv(t, d, net);
      case Update(empty) => WatchFromKeepsInv(t, empty, 0, net);
    }
  }

  lemma InitInv(devices: nat, net: bool)
    ensures Inv(Init(devices), net)
  {
    SumBounds(Ones(Init(devices).slots), 0, 0);
    SumBounds(Taken(Init(devices).avail), 0, 0);
  }

  /** After any run of opens, closes and timeout rounds: the count is the number of occupied slots, a
      device's mixbit is 1<<i exactly when it sits in slot i, nobody sits twice, and the reference
      names an occupied slot whenever there is one. */
  lemma SlotBookkeeping(devices: nat, calls: seq<Call>, net: bool)
    requires forall k :: 0 <= k < |calls| ==> Fits(calls[k], devices)
    ensures
      var s := DoAll(Init(devices), calls, net);
      && s.count == Occupied(s.slots)
      && (forall i, d :: 0 <= i < MAX_MIX && 0 <= d < devices ==> (s.mixbit[d] == Bit(i) <==> s.slots[i] == d))
      && (forall i, j :: 0 <= i < j < MAX_MIX && s.slots[i] == s.slots[j] ==> s.slots[i] == NOBODY)
      && ((exists i :: 0 <= i < MAX_MIX && s.slots[i] != NOBODY) <==> s.slots[s.ref] != NOBODY)
  {
    InitInv(devices, net);
    DoAllKeepsInv(Init(devices), calls, net);
    var s := DoAll(Init(devices), calls, net);
    CountSaysFull(s);
    forall i, d | 0 <= i < MAX_MIX && 0 <= d < devices ensures s.mixbit[d] == Bit(i) <==> s.slots[i] == d {
      if s.mixbit[d] == Bit(i) {
        var j :| 0 <= j < MAX_MIX && s.slots[j] == d;
        if j < i { BitsDiffer(j, i); } else if i < j { BitsDiffer(i, j); }
      }
    }
    forall i, j | 0 <= i < j < MAX_MIX && s.slots[i] == s.slots[j] ensures s.slots[i] == NOBODY {
      if s.slots[i] != NOBODY {
        OneSeat(s, i, j);
      }
    }
  }

  /** Opening seats a device exactly when it already sat or a slot was free; and with the net mixer it
      then always has an address that nobody else has. */
  lemma SeatedIffRoom(devices: nat, calls: seq<Call>, net: bool, d: nat)
    requires (forall k :: 0 <= k < |calls| ==> Fits(calls[k], devices)) && d < devices
    ensures
      var s := DoAll(Init(devices), calls, net);
      var t := Add(s, d, net);
      && (t.mixbit[d] != 0 <==> s.mixbit[d] != 0 || s.count < MAX_MIX)
      && (t.res[d] > 0 <==> net && t.mixbit[d] != 0)
      && (forall e :: 0 <= e < devices && e != d && t.res[d] > 0 ==> t.res[e] != t.res[d])
      && (forall e :: 0 <= e < devices && e != d ==> t.mixbit[e] == s.mixbit[e] && t.res[e] == s.res[e])
  {
    InitInv(devices, net);
    DoAllKeepsInv(Init(devices), calls, net);
    var s := DoAll(Init(devices), calls, net);
    CountSaysFull(s);
    AddKeepsInv(s, d, net);
    hide SlotsAgree, Bit, DoAll, Busy;
  }

  /** Where a device is seated: in the lowest free slot, with its bit and no silent round on its account, and the
      reference goes there if it named a free slot. Nothing else about the slots changes. */
  lemma SeatedLowest(s: State, d: nat, net: bool)
    requires Inv(s, net) && d < |s.res| && s.mixbit[d] == 0 && s.count < MAX_MIX
    ensures
      var t := Add(s, d, net);
      exists i ::
        && 0 <= i < MAX_MIX && s.slots[i] == NOBODY && (forall j :: 0 <= j < i ==> s.slots[j] != NOBODY)
        && t.slots == s.slots[i := d] && t.mixbit == s.mixbit[d := Bit(i)] && t.timeouts == s.timeouts[d := 0]
        && t.count == s.count + 1 && t.ref == if s.count == 0 then i else s.ref
  {
    CountSaysFull(s);
    var i := First(s.slots, NOBODY, 0);
    assert s.count == 0 ==> i == 0 && s.slots[s.ref] == NOBODY;
    hide Busy, Occupied, Bit;
  }

  /** A device that leaves frees its slot, and the reference, if it was there, goes to the lowest occupied one. */
  lemma UnseatedAlone(s: State, d: nat, i: nat, net: bool)
    requires Inv(s, net) && d < |s.res| && i < MAX_MIX && s.slots[i] == d
    ensures
      var t := Rm(s, d, net);
      && t.slots == s.slots[i := NOBODY] && t.mixbit == s.mixbit[d := 0] && t.timeouts == s.timeouts
      && t.count == s.count - 1
      && (s.ref != i ==> t.ref == s.ref)
      && (s.ref == i && t.count > 0 ==>
            t.slots[t.ref] != NOBODY && forall j :: 0 <= j < t.ref ==> t.slots[j] == NOBODY)
  {
    var k := First(s.slots, d, 0);
    if k != i {
      OneSeat(s, if k < i then k else i, if k < i then i else k);
    }
    UnseatAgrees(s, d);
    CountSaysFull(Unseat(s, d));
    hide Busy, Occupied, Bit;
  }

  /** The net mixer hands out the lowest free address, and takes it back. */
  lemma LowestAddress(s: State, d: nat)
    requires Shaped(s) && d < |s.res| && s.res[d] == 0 && exists a :: 0 <= a < MAX_MIX && s.avail[a]
    ensures
      var t := OpenDev(s, d, true);
      exists a ::
        && 0 <= a < MAX_MIX && s.avail[a] && (forall b :: 0 <= b < a ==> !s.avail[b])
        && t == s.(avail := s.avail[a := false], res := s.res[d := a + 1])
        && CloseDev(t, d, true) == s
  {
    var a := First(s.avail, true, 0);
    assert s.avail[a := false][a := true] == s.avail && s.res[d := a + 1][d := 0] == s.res;
  }

  // ---------- hung devices ----------

  /** Watching slot i touches no other slot, and no device but the one that sits there. */
  lemma WatchElsewhere(s: State, empty: seq<bool>, i: nat, net: bool)
    requires SlotsAgree(s) && |empty| == |s.res| && i < MAX_MIX
    ensures forall k :: 0 <= k < MAX_MIX && k != i ==> Watch(s, empty, i, net).slots[k] == s.slots[k]
    ensures forall d :: 0 <= d < |s.res| && d != s.slots[i] ==> Watch(s, empty, i, net).timeouts[d] == s.timeouts[d]
  {
    var d := s.slots[i];
    var j := First(s.slots, d, 0);
    if d != NOBODY && j != i {
      OneSeat(s, j, i);
    }
  }

  lemma WatchHere(s: State, empty: seq<bool>, k: nat, net: bool)
    requires SlotsAgree(s) && |empty| == |s.res| && k < MAX_MIX && s.slots[k] != NOBODY
    ensures
      var d := s.slots[k];
      var ticks := if empty[d] then s.timeouts[d] + 1 else 0;
      && Watch(s, empty, k, net).timeouts[d] == ticks
      && Watch(s, empty, k, net).slots[k] == if ticks > HUNG then NOBODY else d
  {
    var j := First(s.slots, s.slots[k], 0);
    if j != k {
      OneSeat(s, j, k);
    }
  }

  /** Slots before i, and devices that sit in none of the slots from i on, are left alone. */
  lemma {:induction false} WatchFromElsewhere(s: State, empty: seq<bool>, i: nat, net: bool, k: nat, d: nat)
    requires Shaped(s) && Inv(s, net) && |empty| == |s.res| && i <= MAX_MIX && k < i && d < |s.res|
    requires forall j :: i <= j < MAX_MIX ==> s.slots[j] != d
    ensures WatchFrom(s, empty, i, net).slots[k] == s.slots[k]
    ensures WatchFrom(s, empty, i, net).timeouts[d] == s.timeouts[d]
    decreases MAX_MIX - i
  {
    if i < MAX_MIX {
      WatchElsewhere(s, empty, i, net);
      WatchKeepsInv(s, empty, i, net);
      hide Inv, Watch;
      WatchFromElsewhere(Watch(s, empty, i, net), empty, i + 1, net, k, d);
    }
  }

  lemma SlotsOf(s: State, net: bool)
    requires Inv(s, net)
    ensures SlotsAgree(s)
  {
  }

  lemma SeatedOnce(s: State, k: nat)
    requires SlotsAgree(s) && k < MAX_MIX && s.slots[k] != NOBODY
    ensures forall j :: 0 <= j < MAX_MIX && j != k ==> s.slots[j] != s.slots[k]
  {
    forall j | 0 <= j < MAX_MIX && j != k ensures s.slots[j] != s.slots[k] {
      if s.slots[j] == s.slots[k] {
        OneSeat(s, if j < k then j else k, if j < k then k else j);
      }
    }
  }

  /** One round at a seated device: its ticks go up or back to zero, and past 300 it loses the slot. */
  lemma {:induction false} WatchFromAt(s: State, empty: seq<bool>, i: nat, net: bool, k: nat)
    requires Shaped(s) && SlotsAgree(s) && Inv(s, net)
    requires |empty| == |s.res| && i <= k < MAX_MIX && s.slots[k] != NOBODY
    ensures
      var d := s.slots[k];
      var ticks := if empty[d] then s.timeouts[d] + 1 else 0;
      && WatchFrom(s, empty, i, net).timeouts[d] == ticks
      && WatchFrom(s, empty, i, net).slots[k] == if ticks > HUNG then NOBODY else d
    decreases MAX_MIX - i
  {
    hide Inv, Watch, SlotsAgree;
    var d := s.slots[k];
    var t := Watch(s, empty, i, net);
    WatchElsewhere(s, empty, i, net);
    WatchKeepsInv(s, empty, i, net);
    SeatedOnce(s, k);
    if i < k {
      assert t.slots[k] == d && t.timeouts[d] == s.timeouts[d];
      SlotsOf(t, net);
      WatchFromAt(t, empty, i + 1, net, k);
    } else {
      WatchHere(s, empty, k, net);
      WatchFromElsewhere(t, empty, i + 1, net, k, d);
    }
  }

  /** A free slot stays free: rounds seat nobody. */
  lemma {:induction false} WatchFromFree(s: State, empty: seq<bool>, i: nat, net: bool, k: nat)
    requires Shaped(s) && Inv(s, net) && |empty| == |s.res| && i <= MAX_MIX && k < MAX_MIX && s.slots[k] == NOBODY
    ensures WatchFrom(s, empty, i, net).slots[k] == NOBODY
    decreases MAX_MIX - i
  {
    if i < MAX_MIX {
      WatchElsewhere(s, empty, i, net);
      WatchKeepsInv(s, empty, i, net);
      assert Watch(s, empty, i, net).slots[k] == NOBODY;
      hide Inv, Watch;
      WatchFromFree(Watch(s, empty, i, net), empty, i + 1, net, k);
    }
  }

  /** How many of the last rounds, without a break, found d's queue empty. */
  function Silence(rounds: seq<seq<bool>>, d: nat): nat
    requires forall m :: 0 <= m < |rounds| ==> d < |rounds[m]|
  {
    if rounds == [] || !rounds[|rounds| - 1][d] then 0 else Silence(rounds[..|rounds| - 1], d) + 1
  }

  predicate EverHung(rounds: seq<seq<bool>>, d: nat)
    requires forall m :: 0 <= m < |rounds| ==> d < |rounds[m]|
  {
    rounds != [] && (EverHung(rounds[..|rounds| - 1], d) || Silence(rounds, d) > HUNG)
  }

  function Updates(rounds: seq<seq<bool>>): seq<Call> {
    seq(|rounds|, m requires 0 <= m < |rounds| => Update(rounds[m]))
  }

  /** A freshly seated device keeps its slot through any rounds of timeout checks exactly as long as it
      was never silent for 301 rounds in a row; and its ticks are its present silence. */
  lemma {:induction false} EvictedIffHung(s: State, rounds: seq<seq<bool>>, net: bool, k: nat)
    requires Shaped(s) && Inv(s, net) && k < MAX_MIX && s.slots[k] != NOBODY && s.timeouts[s.slots[k]] == 0
    requires forall m :: 0 <= m < |rounds| ==> |rounds[m]| == |s.res|
    ensures
      var d := s.slots[k];
      var t := DoAll(s, Updates(rounds), net);
      && t.slots[k] == (if EverHung(rounds, d) then NOBODY else d)
      && (!EverHung(rounds, d) ==> t.timeouts[d] == Silence(rounds, d))
    decreases |rounds|
  {
    hide Inv, WatchFrom;
    if rounds != [] {
      var n := |rounds| - 1;
      assert Updates(rounds)[..n] == Updates(rounds[..n]);
      assert Updates(rounds)[n] == Update(rounds[n]);
      EvictedIffHung(s, rounds[..n], net, k);
      DoAllKeepsInv(s, Updates(rounds[..n]), net);
      var t := DoAll(s, Updates(rounds[..n]), net);
      if t.slots[k] == NOBODY {
        WatchFromFree(t, rounds[n], 0, net, k);
      } else {
        SlotsOf(t, net);
        WatchFromAt(t, rounds[n], 0, net, k);
      }
    }
  }

  /** So a device that opens keeps its slot, through any rounds, exactly until it was silent 301 in a row. */
  lemma SeatedUntilHung(s: State, d: nat, rounds: seq<seq<bool>>, net: bool)
    requires Inv(s, net) && d < |s.res| && s.mixbit[d] == 0 && s.count < MAX_MIX
    requires forall m :: 0 <= m < |rounds| ==> |rounds[m]| == |s.res|
    ensures |Add(s, d, net).res| == |s.res| && Shaped(Add(s, d, net))
    ensures
      var k := First(s.slots, NOBODY, 0);
      k < MAX_MIX && DoAll(Add(s, d, net), Updates(rounds), net).slots[k] == if EverHung(rounds, d) then NOBODY else d
  {
    AddKeepsInv(s, d, net);
    CountSaysFull(s);
    var k := First(s.slots, NOBODY, 0);
    var t := Add(s, d, net);
    assert t.slots == s.slots[k := d] && t.timeouts[d] == 0;
    hide Inv, Add, SlotsAgree;
    EvictedIffHung(t, rounds, net, k);
  }

  // ---------- what one call does to other devices ----------

  lemma AddAlone(s: State, d: nat, net: bool)
    requires SlotsAgree(s) && d < |s.res|
    ensures
      var t := Add(s, d, net);
      && (forall e :: 0 <= e < |s.res| && e != d ==> t.mixbit[e] == s.mixbit[e])
      && (t.mixbit[d] != 0 <==> s.mixbit[d] != 0 || s.count < MAX_MIX)
      && t.count == s.count + (if t.mixbit[d] != s.mixbit[d] then 1 else 0)
      && (s.mixbit[d] != 0 ==> t == s) && 0 <= t.count <= MAX_MIX
  {
    CountSaysFull(s);
    hide SlotsAgree, AddressesAgree, Bit;
  }

  lemma RmAlone(s: State, d: nat, net: bool)
    requires SlotsAgree(s) && d < |s.res|
    ensures
      var t := Rm(s, d, net);
      && (forall e :: 0 <= e < |s.res| && e != d ==> t.mixbit[e] == s.mixbit[e]) && t.mixbit[d] == 0
      && t.count == s.count - (if s.mixbit[d] != 0 then 1 else 0)
  {
    UnseatAgrees(s, d);
    hide SlotsAgree, AddressesAgree;
  }

  lemma TickedSlots(s: State, d: nat, ticks: nat)
    requires SlotsAgree(s) && d < |s.res|
    ensures SlotsAgree(Ticked(s, d, ticks)) && Ticked(s, d, ticks).mixbit == s.mixbit
  {
    SameSlotsAgree(s, Ticked(s, d, ticks));
    hide SlotsAgree;
  }

  /** Watching a slot keeps the slots in agreement and seats nobody. */
  lemma WatchSlots(s: State, empty: seq<bool>, i: nat, net: bool)
    requires SlotsAgree(s) && |empty| == |s.res| && i < MAX_MIX
    ensures SlotsAgree(Watch(s, empty, i, net))
    ensures forall e :: 0 <= e < |s.res| && s.mixbit[e] == 0 ==> Watch(s, empty, i, net).mixbit[e] == 0
  {
    var d := s.slots[i];
    if d != NOBODY {
      var t := Ticked(s, d, s.timeouts[d] + 1);
      assert Watch(s, empty, i, net) == Ticked(s, d, 0) || Watch(s, empty, i, net) == t
             || Watch(s, empty, i, net) == Rm(t, d, net) by { hide Rm, Ticked, SlotsAgree; }
      TickedSlots(s, d, 0);
      TickedSlots(s, d, s.timeouts[d] + 1);
      hide SlotsAgree, Rm, Ticked, Watch;
      RmUnseats(t, d, net);
    }
  }

  lemma RmUnseats(s: State, d: nat, net: bool)
    requires SlotsAgree(s) && d < |s.res|
    ensures SlotsAgree(Rm(s, d, net))
    ensures forall e :: 0 <= e < |s.res| && s.mixbit[e] == 0 ==> Rm(s, d, net).mixbit[e] == 0
  {
    RmKeepsSlots(s, d, net);
    hide SlotsAgree;
  }
}

/** The net mixer's addresses with the threads side by side. tag_add_outstanding takes slot and address under
    the tag's lock, but tag_rm_outstanding gives the slot back under it and the address after it. Any number
    of threads may stand between the two. */
module MixSlotsInterleaved {
  import opened Seqs
  import opened M = MixSlots

  /** `closing` holds the devices whose netmx_close_dev is still to come. */
  datatype Table = Table(s: State, closing: multiset<nat>)

  datatype Step =
    | Add(d: nat)     // tag_add_outstanding
    | Remove(d: nat)  // tag_rm_outstanding up to its UNLOCK
    | Release(d: nat) // its netmx_close_dev

  predicate Enabled(t: Table, step: Step) {
    step.d < |t.s.res| && (step.Release? ==> step.d in t.closing)
  }

  function Apply(t: Table, step: Step): (u: Table)
    requires Shaped(t.s) && Enabled(t, step)
    ensures Shaped(u.s) && |u.s.res| == |t.s.res|
  {
    match step
    case Add(d) => t.(s := M.Add(t.s, d, true))
    case Remove(d) => Table(Unseat(t.s, d), t.closing + multiset{d})
    case Release(d) => Table(CloseDev(t.s, d, true), t.closing - multiset{d})
  }

  /** A device's address is taken, by nobody else, and every address taken is some device's. */
  ghost predicate Owned(res: seq<nat>, avail: seq<bool>) {
    && |avail| == MAX_MIX
    && (forall d :: 0 <= d < |res| ==> res[d] <= MAX_MIX && (res[d] > 0 ==> !avail[res[d] - 1]))
    && (forall d, e :: 0 <= d < |res| && 0 <= e < |res| && d != e && res[d] > 0 ==> res[d] != res[e])
    && forall a :: 0 <= a < MAX_MIX && !avail[a] ==> a + 1 in res
  }

  /** Whoever is seated has an address; whoever has one is seated or about to release it. */
  ghost predicate Housed(mixbit: seq<nat>, res: seq<nat>, closing: multiset<nat>) {
    && |mixbit| == |res|
    && forall d :: 0 <= d < |res| ==>
         (mixbit[d] != 0 ==> res[d] > 0) && (res[d] > 0 ==> mixbit[d] != 0 || d in closing)
  }

  /** Slots and mixbits agree, every seated device has an address of its own, and no address is lost. */
  ghost predicate Sound(t: Table) {
    SlotsAgree(t.s) && Owned(t.s.res, t.s.avail) && Housed(t.s.mixbit, t.s.res, t.closing)
  }

  predicate Seats(s: State, d: nat)
    requires Shaped(s) && d < |s.res|
  {
    s.mixbit[d] == 0 && First(s.slots, NOBODY, 0) < MAX_MIX
  }

  /** The device is seated while its old address is still to be released and another one is free, or while
      it has none and all are taken; or its address is released after it was seated again. */
  predicate Bad(t: Table, step: Step)
    requires Shaped(t.s) && Enabled(t, step)
  {
    match step
    case Add(d) => Seats(t.s, d) && (t.s.res[d] > 0 <==> First(t.s.avail, true, 0) < MAX_MIX)
    case Remove(_) => false
    case Release(d) => t.s.mixbit[d] != 0
  }

  lemma LeaksOld(res: seq<nat>, avail: seq<bool>, d: nat, a: nat)
    requires Owned(res, avail) && d < |res| && a < MAX_MIX && avail[a] && res[d] > 0
    ensures !Owned(res[d := a + 1], avail[a := false])
  {
    assert res[d] !in res[d := a + 1];
    assert !avail[a := false][res[d] - 1];
  }

  lemma TakesFree(res: seq<nat>, avail: seq<bool>, d: nat, a: nat)
    requires Owned(res, avail) && d < |res| && a < MAX_MIX && avail[a] && res[d] == 0
    ensures Owned(res[d := a + 1], avail[a := false])
  {
    var r := res[d := a + 1];
    assert r[d] == a + 1;
    KeepsOthers(res, d, a + 1);
  }

  lemma GivesBack(res: seq<nat>, avail: seq<bool>, d: nat)
    requires Owned(res, avail) && d < |res| && res[d] > 0
    ensures Owned(res[d := 0], avail[res[d] - 1 := true])
  {
    KeepsOthers(res, d, 0);
  }

  lemma KeepsOthers(res: seq<nat>, d: nat, x: nat)
    requires d < |res|
    ensures forall y :: y in res && y != res[d] ==> y in res[d := x]
  {
    forall y | y in res && y != res[d] ensures y in res[d := x] {
      var e :| 0 <= e < |res| && res[e] == y;
      assert res[d := x][e] == y;
    }
  }

  lemma AddSeats(t: Table, d: nat)
    requires Sound(t) && Enabled(t, Add(d)) && Seats(t.s, d)
    ensures
      var s, u, a := t.s, M.Add(t.s, d, true), First(t.s.avail, true, 0);
      && SlotsAgree(u) && |u.res| == |s.res| && u.mixbit == s.mixbit[d := u.mixbit[d]] && u.mixbit[d] != 0
      && (if a < MAX_MIX then u.res == s.res[d := a + 1] && u.avail == s.avail[a := false]
          else u.res == s.res && u.avail == s.avail)
  {
    AddKeepsSlots(t.s, d, true);
    hide SlotsAgree, Owned, Housed;
  }

  lemma HousedSeat(mixbit: seq<nat>, res: seq<nat>, closing: multiset<nat>, d: nat, m: nat, x: nat)
    requires Housed(mixbit, res, closing) && d < |res| && m > 0
    ensures x > 0 ==> Housed(mixbit[d := m], res[d := x], closing)
    ensures Housed(mixbit[d := m], res, closing) <==> res[d] > 0
  {
    if Housed(mixbit[d := m], res, closing) {
      assert mixbit[d := m][d] != 0;
    }
  }

  lemma AddSound(t: Table, d: nat)
    requires Sound(t) && Enabled(t, Add(d))
    ensures Sound(Apply(t, Add(d))) <==> !Bad(t, Add(d))
  {
    var s, a := t.s, First(t.s.avail, true, 0);
    if Seats(s, d) {
      AddSeats(t, d);
      hide SlotsAgree, Owned, Housed, Bit, M.Add, Seats, Shaped;
      HousedSeat(s.mixbit, s.res, t.closing, d, M.Add(s, d, true).mixbit[d], a + 1);
      if a < MAX_MIX {
        if s.res[d] > 0 {
          LeaksOld(s.res, s.avail, d, a);
        } else {
          TakesFree(s.res, s.avail, d, a);
        }
      }
    } else {
      assert Apply(t, Add(d)) == t;
      hide Sound, Apply;
    }
  }

  lemma RemoveSound(t: Table, d: nat)
    requires Sound(t) && Enabled(t, Remove(d))
    ensures Sound(Apply(t, Remove(d)))
  {
    UnseatAgrees(t.s, d);
    hide SlotsAgree, Owned, First, Another, Shaped;
    HousedUnseat(t.s.mixbit, t.s.res, t.closing, d);
    hide Housed;
  }

  lemma HousedUnseat(mixbit: seq<nat>, res: seq<nat>, closing: multiset<nat>, d: nat)
    requires Housed(mixbit, res, closing) && d < |res|
    ensures Housed(mixbit[d := 0], res, closing + multiset{d})
  {
  }

  lemma ReleaseSound(t: Table, d: nat)
    requires Sound(t) && Enabled(t, Release(d))
    ensures Sound(Apply(t, Release(d))) <==> !Bad(t, Release(d))
  {
    var s := t.s;
    assert s.res[d] <= MAX_MIX;
    SameSlotsAgree(s, CloseDev(s, d, true));
    hide SlotsAgree;
    if s.res[d] > 0 {
      GivesBack(s.res, s.avail, d);
    }
    hide Owned;
  }

  lemma StepSound(t: Table, step: Step)
    requires Sound(t) && Enabled(t, step)
    ensures Sound(Apply(t, step)) <==> !Bad(t, step)
  {
    match step {
      case Add(d) => AddSound(t, d);
      case Remove(d) => RemoveSound(t, d);
      case Release(d) => ReleaseSound(t, d);
    }
    hide Sound, Apply;
  }

  predicate Runs(t: Table, steps: seq<Step>)
    requires Shaped(t.s)
    decreases |steps|
  {
    steps == [] || (Enabled(t, steps[0]) && Runs(Apply(t, steps[0]), steps[1..]))
  }

  predicate NoneBad(t: Table, steps: seq<Step>)
    requires Shaped(t.s) && Runs(t, steps)
    decreases |steps|
  {
    steps != [] ==> !Bad(t, steps[0]) && NoneBad(Apply(t, steps[0]), steps[1..])
  }

  ghost predicate SoundThroughout(t: Table, steps: seq<Step>)
    requires Shaped(t.s) && Runs(t, steps)
    decreases |steps|
  {
    Sound(t) && (steps != [] ==> SoundThroughout(Apply(t, steps[0]), steps[1..]))
  }

  lemma {:induction false} SoundFrom(t: Table, steps: seq<Step>)
    requires Sound(t) && Runs(t, steps)
    ensures SoundThroughout(t, steps) <==> NoneBad(t, steps)
    decreases |steps|
  {
    if steps != [] {
      assert Shaped(t.s);
      hide Sound, Apply, Enabled, Bad;
      StepSound(t, steps[0]);
      if !Bad(t, steps[0]) {
        SoundFrom(Apply(t, steps[0]), steps[1..]);
      }
    }
  }

  lemma InitSound(devices: nat)
    ensures Sound(Table(M.Init(devices), multiset{}))
  {
    InitInv(devices, true);
    hide SlotsAgree;
  }

  /** In every interleaving every seated device has an address of its own, and no address is lost, exactly
      while no device is seated, or released, at the wrong moment. */
  lemma OwnAddressIffNoneBad(devices: nat, steps: seq<Step>)
    requires Runs(Table(M.Init(devices), multiset{}), steps)
    ensures SoundThroughout(Table(M.Init(devices), multiset{}), steps)
            <==> NoneBad(Table(M.Init(devices), multiset{}), steps)
  {
    InitSound(devices);
    SoundFrom(Table(M.Init(devices), multiset{}), steps);
  }

  /** With all slots taken there is no address left. */
  lemma NoneFree(t: Table)
    requires Sound(t) && t.s.count == MAX_MIX
    ensures First(t.s.avail, true, 0) == MAX_MIX
  {
    var s := t.s;
    CountSaysFull(s);
    var a := First(s.avail, true, 0);
    if a < MAX_MIX {
      var taken: seq<int> := seq(MAX_MIX, i requires 0 <= i < MAX_MIX => s.res[s.slots[i]] - 1);
      forall i, j | 0 <= i < j < MAX_MIX ensures taken[i] != taken[j] {
        OneSeat(s, i, j);
      }
      DistinctBelowMissing(taken, MAX_MIX, a);
    }
  }

  /** One of eight leaves and a ninth comes before the address is released: it has a slot and none. */
  lemma NinthWithoutAddress(t: Table, d: nat, e: nat)
    requires Sound(t) && t.s.count == MAX_MIX && d < |t.s.res| && e < |t.s.res|
    requires t.s.mixbit[d] != 0 && t.s.mixbit[e] == 0 && t.s.res[e] == 0
    ensures Runs(t, [Remove(d), Add(e)])
    ensures
      var s := Apply(Apply(t, Remove(d)), Add(e)).s;
      s.mixbit[e] != 0 && s.res[e] == 0
  {
    var u := Apply(t, Remove(d));
    NoneFree(t);
    UnseatAgrees(t.s, d);
    CountSaysFull(u.s);
    assert [Remove(d), Add(e)][1..] == [Add(e)];
    assert Runs(Apply(u, Add(e)), [Add(e)][1..]);
    assert Runs(u, [Add(e)]);
    hide SlotsAgree;
  }
}
