/** serv/cmd_discctrl.c: who may speak. A tag keeps the open microphones in the order they were
    opened; a request is let in, put in another's place, or rejected. serv/hbeat.c closes the
    microphone of a device it finds dead. Each open microphone asks for a mixing slot. */
module Floor {
  import opened Seqs
  import MixSlots

  const DEVTYPE_CHAIR := 2
  const DISCMODE_FIFO := 1
  const NOBODY := MixSlots.NOBODY

  /** `kind` holds the device types, `mix` the tag's mixing slots. */
  datatype State = State(
    kind: seq<int>, active: seq<bool>, open: seq<bool>,
    list: seq<nat>, openUser: int, mode: int, maxUser: int, net: bool, mix: MixSlots.State)

  datatype Choice = Put | Evict(k: nat) | Reject

  predicate Chair(s: State, d: nat) {
    d < |s.kind| && s.kind[d] == DEVTYPE_CHAIR
  }

  predicate Shaped(s: State) {
    && |s.kind| == |s.active| == |s.open| == |s.mix.res| && MixSlots.Shaped(s.mix)
    && forall i :: 0 <= i < |s.list| ==> s.list[i] < |s.kind|
  }

  function Without(list: seq<nat>, d: nat): (r: seq<nat>)
    ensures forall x :: x in r ==> x in list
  {
    var i := MixSlots.First(list, d, 0);
    if i == |list| then list else list[..i] + list[i + 1..]
  }

  /** add_open */
  function Opening(s: State, d: nat): (t: State)
    requires Shaped(s) && d < |s.kind|
    ensures Shaped(t)
  {
    s.(list := s.list + [d], openUser := s.openUser + 1, open := s.open[d := true],
       mix := MixSlots.Add(s.mix, d, s.net))
  }

  /** del_open */
  function Closing(s: State, d: nat): (t: State)
    requires Shaped(s) && d < |s.kind|
    ensures Shaped(t)
  {
    s.(list := Without(s.list, d), openUser := s.openUser - 1, open := s.open[d := false],
       mix := MixSlots.Rm(s.mix, d, s.net))
  }

  /** The walk over the open list from entry i on; `kick` is the candidate so far, or NOBODY. */
  function Scan(s: State, i: nat, counted: int, kick: int): (c: Choice)
    requires Shaped(s) && i <= |s.list| && NOBODY <= kick < |s.kind|
    ensures c.Evict? ==> c.k < |s.kind|
    decreases |s.list| - i
  {
    if i == |s.list| then
      if kick == NOBODY then Reject else Evict(kick)
    else if Chair(s, s.list[i]) then
      if counted - 1 < s.maxUser then Put else Scan(s, i + 1, counted - 1, kick)
    else if !s.active[s.list[i]] then Evict(s.list[i])
    else Scan(s, i + 1, counted, if kick == NOBODY then s.list[i] else kick)
  }

  /** What the "request" command does with a microphone that wants to open. */
  function Admit(s: State, d: nat): (c: Choice)
    requires Shaped(s) && d < |s.kind|
    ensures c.Evict? ==> c.k < |s.kind|
  {
    if Chair(s, d) && s.openUser < MixSlots.MAX_MIX then Put
    else if s.openUser < s.maxUser then Put
    else
      var c := Scan(s, 0, s.openUser, NOBODY);
      if c.Evict? && s.active[c.k] && s.mode != DISCMODE_FIFO then Reject else c
  }

  /** "discctrl request": the state after it, and whether the answer is OK. `want` is the number the
      client sent. */
  function Answer(s: State, d: nat, want: int): (r: (State, bool))
    requires Shaped(s) && d < |s.kind|
    ensures Shaped(r.0)
  {
    if want == (if s.open[d] then 1 else 0) then
      (if want != 0 then s.(mix := MixSlots.Add(s.mix, d, s.net)) else s, true)
    else if want == 0 then (Closing(s, d), true)
    else
      match Admit(s, d)
      case Put => (Opening(s, d), true)
      case Evict(k) => (Opening(Closing(s, k), d), true)
      case Reject => (s, false)
  }

  /** A heartbeat timed out. */
  function Die(s: State, d: nat): (t: State)
    requires Shaped(s) && d < |s.kind|
    ensures Shaped(t)
  {
    if !s.active[d] then s
    else
      var t := s.(active := s.active[d := false]);
      if s.open[d] then Closing(t, d) else t
  }

  // ---------- the code ----------

  class Discussion {
    const kind: seq<int>
    const active: array<bool>
    const open: array<bool>
    const mix: MixSlots.Tag
    var list: seq<nat>
    var openUser: int
    var mode: int
    const maxUser: int

    ghost predicate Valid()
      reads this, mix, mix.mixDevs
    {
      && mix.Valid() && active.Length == open.Length == mix.res.Length == |kind|
      && active != open && active != mix.avail && open != mix.avail
      && forall i :: 0 <= i < |list| ==> list[i] < |kind|
    }

    ghost function View(): State
      reads this, active, open, mix, mix.mixDevs, mix.mixbit, mix.timeouts, mix.res, mix.avail
    {
      State(kind, active[..], open[..], list, openUser, mode, maxUser, mix.net, mix.View())
    }

    constructor (kind: seq<int>, mode: int, maxUser: int, net: bool)
      ensures Valid() && View() == Init(kind, mode, maxUser, net)
    {
      this.kind := kind;
      var tag := new MixSlots.Tag(|kind|, net);
      mix := tag;
      active := new bool[|kind|](_ => false);
      open := new bool[|kind|](_ => false);
      list := [];
      openUser := 0;
      this.mode := mode;
      this.maxUser := maxUser;
      new;
      assert |mix.View().res| == |kind|;
    }

    method AddOpen(d: nat)
      requires Valid() && d < |kind|
      modifies this`list, this`openUser, open
      modifies mix`mixCount, mix`mixRef, mix.mixDevs, mix.mixbit, mix.timeouts, mix.res, mix.avail
      ensures Valid() && View() == Opening(old(View()), d)
    {
      list := list + [d];
      openUser := openUser + 1;
      open[d] := true;
      mix.AddOutstanding(d);
    }

    method DelOpen(d: nat)
      requires Valid() && d < |kind|
      modifies this`list, this`openUser, open
      modifies mix`mixCount, mix`mixRef, mix.mixDevs, mix.mixbit, mix.res, mix.avail
      ensures Valid() && View() == Closing(old(View()), d)
    {
      list := Without(list, d);
      openUser := openUser - 1;
      open[d] := false;
      mix.RmOutstanding(d);
    }

    /** The walk over the open list. */
    method FindKick() returns (c: Choice)
      requires Valid()
      ensures c == Scan(View(), 0, openUser, NOBODY)
    {
      var kick := NOBODY;
      var counted := openUser;
      var i := 0;
      while i < |list|
        invariant i <= |list| && NOBODY <= kick < |kind|
        invariant Scan(View(), 0, openUser, NOBODY) == Scan(View(), i, counted, kick)
      {
        var k := list[i];
        if kind[k] == DEVTYPE_CHAIR {
          counted := counted - 1;
          if counted < maxUser {
            return Put;
          }
        } else if !active[k] {
          kick := k;
          return Evict(k);
        } else if kick == NOBODY {
          kick := k;
        }
        i := i + 1;
      }
      return if kick == NOBODY then Reject else Evict(kick);
    }

    method Request(d: nat, want: int) returns (ok: bool)
      requires Valid() && d < |kind|
      modifies this`list, this`openUser, open
      modifies mix`mixCount, mix`mixRef, mix.mixDevs, mix.mixbit, mix.timeouts, mix.res, mix.avail
      ensures Valid() && (View(), ok) == Answer(old(View()), d, want)
    {
      hide MixSlots.Add, MixSlots.Rm;
      if want == (if open[d] then 1 else 0) {
        if want != 0 {
          mix.AddOutstanding(d);
        }
        return true;
      }
      if want == 0 {
        DelOpen(d);
        return true;
      }
      if !(kind[d] == DEVTYPE_CHAIR && openUser < MixSlots.MAX_MIX) && !(openUser < maxUser) {
        var c := FindKick();
        if c == Reject || (c.Evict? && active[c.k] && mode != DISCMODE_FIFO) {
          return false;
        }
        if c.Evict? {
          DelOpen(c.k);
        }
      }
      AddOpen(d);
      return true;
    }

    /** run_heartbeat_god, for one device whose time has run out. */
    method Deactivate(d: nat)
      requires Valid() && d < |kind|
      modifies this`list, this`openUser, open, active
      modifies mix`mixCount, mix`mixRef, mix.mixDevs, mix.mixbit, mix.res, mix.avail
      ensures Valid() && View() == Die(old(View()), d)
    {
      if active[d] {
        active[d] := false;
        if open[d] {
          DelOpen(d);
        }
      }
    }
  }

  function Init(kind: seq<int>, mode: int, maxUser: int, net: bool): State {
    State(kind, seq(|kind|, _ => false), seq(|kind|, _ => false), [], 0, mode, maxUser, net, MixSlots.Init(|kind|))
  }

  // ---------- the admission rule, said without the walk ----------

  /** The first microphone in the list whose device is dead and no chair, or the length. */
  function FirstDead(s: State, i: nat): (r: nat)
    requires Shaped(s) && i <= |s.list|
    ensures i <= r <= |s.list|
    ensures r < |s.list| ==> !Chair(s, s.list[r]) && !s.active[s.list[r]]
    ensures forall j :: i <= j < r ==> Chair(s, s.list[j]) || s.active[s.list[j]]
    decreases |s.list| - i
  {
    if i == |s.list| || (!Chair(s, s.list[i]) && !s.active[s.list[i]]) then i else FirstDead(s, i + 1)
  }

  /** The first microphone in the list that is no chair's: the oldest one. */
  function Oldest(s: State, i: nat): (r: nat)
    requires i <= |s.list|
    ensures i <= r <= |s.list|
    ensures r < |s.list| ==> !Chair(s, s.list[r])
    ensures forall j :: i <= j < r ==> Chair(s, s.list[j])
    decreases |s.list| - i
  {
    if i == |s.list| || !Chair(s, s.list[i]) then i else Oldest(s, i + 1)
  }

  function Ones(kind: seq<int>, list: seq<nat>): seq<int> {
    seq(|list|, i requires 0 <= i < |list| => if list[i] < |kind| && kind[list[i]] == DEVTYPE_CHAIR then 0 else 1)
  }

  /** How many of the listed microphones are no chair's. */
  function Speakers(kind: seq<int>, list: seq<nat>): int {
    Sum(Ones(kind, list))
  }

  /** How many chairs are listed among entries i up to j. */
  function ChairsIn(s: State, i: nat, j: nat): nat
    requires i <= j <= |s.list|
    decreases j - i
  {
    if i == j then 0 else (if Chair(s, s.list[i]) then 1 else 0) + ChairsIn(s, i + 1, j)
  }

  lemma {:induction false} ScanRule(s: State, i: nat, counted: int, kick: int)
    requires Shaped(s) && i <= |s.list| && NOBODY <= kick < |s.kind| && counted >= s.maxUser
    ensures
      var p := FirstDead(s, i);
      Scan(s, i, counted, kick) ==
        if counted - ChairsIn(s, i, p) < s.maxUser then Put
        else if p < |s.list| then Evict(s.list[p])
        else if kick != NOBODY then Evict(kick)
        else if Oldest(s, i) < |s.list| then Evict(s.list[Oldest(s, i)])
        else Reject
    decreases |s.list| - i
  {
    if i < |s.list| {
      var k := s.list[i];
      if Chair(s, k) {
        if counted - 1 >= s.maxUser {
          ScanRule(s, i + 1, counted - 1, kick);
        }
      } else if s.active[k] {
        ScanRule(s, i + 1, counted, if kick == NOBODY then k else kick);
      }
    }
  }

  /** Who is let in: a chair while fewer than eight microphones are open; anybody while the microphones,
      less the chairs met before the first dead speaker, are fewer than maxuser; then in the place of
      that dead speaker, or, when nobody listed is dead and the mode is FIFO, in the place of the
      oldest speaker; and nobody else. */
  lemma AdmissionRule(s: State, d: nat)
    requires Shaped(s) && d < |s.kind|
    ensures
      var p := FirstDead(s, 0);
      Admit(s, d) ==
        if (Chair(s, d) && s.openUser < MixSlots.MAX_MIX) || s.openUser - ChairsIn(s, 0, p) < s.maxUser then Put
        else if p < |s.list| then Evict(s.list[p])
        else if s.mode == DISCMODE_FIFO && Oldest(s, 0) < |s.list| then Evict(s.list[Oldest(s, 0)])
        else Reject
  {
    if s.openUser >= s.maxUser {
      ScanRule(s, 0, s.openUser, NOBODY);
    }
  }

  /** A chair's microphone is never taken, and a victim is always a listed one. */
  lemma ChairNeverEvicted(s: State, d: nat)
    requires Shaped(s) && d < |s.kind|
    ensures Admit(s, d).Evict? ==> !Chair(s, Admit(s, d).k) && Admit(s, d).k in s.list
  {
    AdmissionRule(s, d);
  }

  // ---------- what every request keeps ----------

  ghost predicate Inv(s: State) {
    && Shaped(s)
    && s.openUser == |s.list|
    && Distinct(s.list)
    && (forall d :: 0 <= d < |s.kind| ==> (s.open[d] <==> d in s.list))
    && (Speakers(s.kind, s.list) > 0 ==> Speakers(s.kind, s.list) <= s.maxUser)
  }

  /** Whoever has a mixing slot has an open microphone. */
  ghost predicate SlotsOpen(s: State) {
    && MixSlots.SlotsAgree(s.mix) && Shaped(s)
    && forall d :: 0 <= d < |s.open| && s.mix.mixbit[d] != 0 ==> s.open[d]
  }

  /** The one request that goes wrong: a microphone that is open already, asked to open with a number
      that is neither 0 nor 1, and not rejected nor put in its own place. Its entry, linked already,
      is linked once more: what stands behind it in the list is cut off from the walk, or the entry
      points at itself when it is the last. Here it is written down as a second entry; either way the
      list is no longer the open microphones, each once. */
  predicate ListsTwice(s: State, d: nat, want: int)
    requires Shaped(s) && d < |s.kind|
  {
    s.open[d] && want != 0 && want != 1 && Admit(s, d) != Reject && Admit(s, d) != Evict(d)
  }

  lemma SpeakersAdd(kind: seq<int>, list: seq<nat>, d: nat)
    requires d < |kind|
    ensures Speakers(kind, list + [d]) == Speakers(kind, list) + if kind[d] == DEVTYPE_CHAIR then 0 else 1
  {
    var one := if kind[d] == DEVTYPE_CHAIR then 0 else 1;
    assert Ones(kind, list + [d]) == Ones(kind, list) + [one];
    SumAppend(Ones(kind, list), one);
  }

  lemma {:induction false} SumSkip(xs: seq<int>, k: nat)
    requires k < |xs|
    ensures Sum(xs[..k] + xs[k + 1..]) == Sum(xs) - xs[k]
  {
    var n := |xs| - 1;
    if k == n {
      assert xs[..k] + xs[k + 1..] == xs[..n];
    } else {
      SumSkip(xs[..n], k);
      assert (xs[..k] + xs[k + 1..])[..n - 1] == xs[..n][..k] + xs[..n][k + 1..];
    }
  }

  lemma SpeakersDrop(kind: seq<int>, list: seq<nat>, d: nat)
    requires d < |kind| && d in list
    ensures |Without(list, d)| == |list| - 1
    ensures Speakers(kind, Without(list, d)) == Speakers(kind, list) - if kind[d] == DEVTYPE_CHAIR then 0 else 1
  {
    var i := MixSlots.First(list, d, 0);
    assert Ones(kind, Without(list, d)) == Ones(kind, list)[..i] + Ones(kind, list)[i + 1..];
    SumSkip(Ones(kind, list), i);
  }

  lemma CutDistinct(list: seq<nat>, i: nat, x: nat)
    requires Distinct(list) && i < |list|
    ensures var r := list[..i] + list[i + 1..]; Distinct(r) && (x in r <==> x in list && x != list[i])
  {
    var r := list[..i] + list[i + 1..];
    if k :| 0 <= k < |list| && list[k] == x && k != i {
      assert r[if k < i then k else k - 1] == x;
    }
  }

  lemma WithoutDistinct(list: seq<nat>, d: nat)
    requires Distinct(list)
    ensures Distinct(Without(list, d))
    ensures forall x :: x in Without(list, d) <==> x in list && x != d
  {
    var i := MixSlots.First(list, d, 0);
    if i < |list| {
      CutDistinct(list, i, d);
      forall x: nat ensures x in Without(list, d) <==> x in list && x != d {
        CutDistinct(list, i, x);
      }
    }
  }

  lemma SpeakersCount(s: State)
    requires Shaped(s)
    ensures 0 <= Speakers(s.kind, s.list) <= |s.list|
  {
    SumBounds(Ones(s.kind, s.list), 0, 1);
  }

  /** Everybody listed is a chair or a speaker. */
  lemma {:induction false} ChairsAndSpeakers(s: State, n: nat)
    requires Shaped(s) && n <= |s.list|
    ensures Speakers(s.kind, s.list[..n]) + ChairsIn(s, 0, n) == n
  {
    if n > 0 {
      ChairsAndSpeakers(s, n - 1);
      assert s.list[..n] == s.list[..n - 1] + [s.list[n - 1]];
      SpeakersAdd(s.kind, s.list[..n - 1], s.list[n - 1]);
      ChairsLast(s, 0, n);
    }
  }

  lemma {:induction false} ChairsLast(s: State, i: nat, j: nat)
    requires i < j <= |s.list|
    ensures ChairsIn(s, i, j) == ChairsIn(s, i, j - 1) + if Chair(s, s.list[j - 1]) then 1 else 0
    decreases j - i
  {
    if i + 1 < j {
      ChairsLast(s, i + 1, j);
    }
  }

  lemma {:induction false} ChairsGrow(s: State, p: nat, n: nat)
    requires p <= n <= |s.list|
    ensures ChairsIn(s, 0, p) <= ChairsIn(s, 0, n)
    decreases n
  {
    if p < n {
      ChairsLast(s, 0, n);
      ChairsGrow(s, p, n - 1);
    }
  }

  /** Nobody but a chair is put through while maxuser speakers are listed. */
  lemma PutMeansRoom(s: State, d: nat)
    requires Inv(s) && d < |s.kind| && Admit(s, d) == Put && !Chair(s, d)
    ensures Speakers(s.kind, s.list) < s.maxUser
  {
    var p := FirstDead(s, 0);
    AdmissionRule(s, d);
    ChairsGrow(s, p, |s.list|);
    ChairsAndSpeakers(s, |s.list|);
    assert s.list[..|s.list|] == s.list;
  }

  lemma OpeningKeepsInv(s: State, d: nat)
    requires Inv(s) && d < |s.kind| && !s.open[d]
    requires Chair(s, d) || Speakers(s.kind, s.list) < s.maxUser
    ensures Inv(Opening(s, d))
  {
    hide MixSlots.Add, Speakers;
    SpeakersAdd(s.kind, s.list, d);
    assert d !in s.list;
  }

  lemma ClosingKeepsInv(s: State, d: nat)
    requires Inv(s) && d < |s.kind| && s.open[d]
    ensures Inv(Closing(s, d)) && !Closing(s, d).open[d]
    ensures Speakers(s.kind, Closing(s, d).list) == Speakers(s.kind, s.list) - if Chair(s, d) then 0 else 1
  {
    SpeakersDrop(s.kind, s.list, d);
    WithoutDistinct(s.list, d);
    SpeakersCount(s);
    hide MixSlots.Rm, Speakers, Without;
  }

  /** Every request, from any device and with any number, keeps the bookkeeping and the limit on
      speakers, except exactly the one that would list a microphone twice. */
  lemma AnswerKeepsInv(s: State, d: nat, want: int)
    requires Inv(s) && d < |s.kind|
    ensures Inv(Answer(s, d, want).0) <==> !ListsTwice(s, d, want)
  {
    hide Speakers, MixSlots.Add, MixSlots.Rm, Admit, Without;
    ChairNeverEvicted(s, d);
    if want == (if s.open[d] then 1 else 0) {
    } else if want == 0 {
      ClosingKeepsInv(s, d);
    } else {
      match Admit(s, d)
      case Reject =>
      case Put =>
        if s.open[d] {
          TwiceIsNotDistinct(s.list, d);
        } else {
          if !Chair(s, d) { PutMeansRoom(s, d); }
          OpeningKeepsInv(s, d);
        }
      case Evict(k) =>
        ClosingKeepsInv(s, k);
        if s.open[d] && k != d {
          WithoutDistinct(s.list, k);
          TwiceIsNotDistinct(Closing(s, k).list, d);
        } else {
          SpeakersCount(Closing(s, k));
          OpeningKeepsInv(Closing(s, k), d);
        }
    }
  }

  lemma TwiceIsNotDistinct(list: seq<nat>, d: nat)
    requires d in list
    ensures !Distinct(list + [d])
  {
    var k :| 0 <= k < |list| && list[k] == d;
    assert (list + [d])[k] == (list + [d])[|list|];
  }

  lemma DieKeepsInv(s: State, d: nat)
    requires Inv(s) && d < |s.kind|
    ensures Inv(Die(s, d))
  {
    hide Speakers, MixSlots.Rm, Without;
    if s.active[d] && s.open[d] {
      ClosingKeepsInv(s.(active := s.active[d := false]), d);
    }
  }

  /** The entry that makes room: the first dead speaker's, else the oldest speaker's; the length if none. */
  function Victim(s: State): nat
    requires Shaped(s)
  {
    if FirstDead(s, 0) < |s.list| then FirstDead(s, 0)
    else if s.mode == DISCMODE_FIFO then Oldest(s, 0)
    else |s.list|
  }

  predicate HasRoom(s: State, d: nat)
    requires Shaped(s)
  {
    (Chair(s, d) && s.openUser < 8) || s.openUser - ChairsIn(s, 0, FirstDead(s, 0)) < s.maxUser
  }

  predicate AsksToOpen(s: State, d: nat, want: int)
    requires Shaped(s) && d < |s.kind|
  {
    want != 0 && !(s.open[d] && want == 1)
  }

  lemma AdmitSays(s: State, d: nat)
    requires Inv(s) && d < |s.kind|
    ensures
      Admit(s, d) ==
        if HasRoom(s, d) then Put else if Victim(s) < |s.list| then Evict(s.list[Victim(s)]) else Reject
  {
    AdmissionRule(s, d);
    hide Admit, Speakers, ChairsIn, FirstDead, Oldest, Chair;
  }

  /** What a request is told, and what it gets. It is rejected exactly when it asks to open, there is no room
      below the limit and no place to take: nothing has then changed. Told OK, the microphone is as asked for; a
      victim, and nobody else, is closed. */
  lemma AnswerTells(s: State, d: nat, want: int)
    requires Inv(s) && d < |s.kind|
    ensures
      var (t, ok) := Answer(s, d, want);
      var evicts := AsksToOpen(s, d, want) && !HasRoom(s, d) && Victim(s) < |s.list|;
      && (!ok <==> AsksToOpen(s, d, want) && !HasRoom(s, d) && Victim(s) >= |s.list|)
      && (!ok ==> t == s)
      && (ok ==> (t.open[d] <==> want != 0))
      && (forall e :: 0 <= e < |s.kind| && e != d ==>
            (t.open[e] <==> s.open[e] && !(evicts && e == s.list[Victim(s)])))
      && t.active == s.active && t.mode == s.mode && t.kind == s.kind && t.maxUser == s.maxUser
  {
    AdmitSays(s, d);
    assert Shaped(s);
    hide Admit, Without, MixSlots.Add, MixSlots.Rm, Inv, HasRoom, Victim;
  }

  // ---------- the order of the open list ----------

  predicate Stand(list: seq<nat>, i: int, j: int, a: nat, b: nat) {
    0 <= i < j < |list| && list[i] == a && list[j] == b
  }

  /** Some entry of a stands before one of b. */
  ghost predicate Before(list: seq<nat>, a: nat, b: nat) {
    exists i, j :: Stand(list, i, j, a, b)
  }

  lemma BeforeAppend(list: seq<nat>, d: nat, a: nat, b: nat)
    requires a != d && b != d
    ensures Before(list + [d], a, b) <==> Before(list, a, b)
  {
    if i, j :| Stand(list + [d], i, j, a, b) {
      assert Stand(list, i, j, a, b);
    }
    if i, j :| Stand(list, i, j, a, b) {
      assert Stand(list + [d], i, j, a, b);
    }
  }

  lemma BeforeCut(list: seq<nat>, n: nat, a: nat, b: nat)
    requires n < |list| && a != list[n] && b != list[n]
    ensures Before(list[..n] + list[n + 1..], a, b) <==> Before(list, a, b)
  {
    var r := list[..n] + list[n + 1..];
    if i, j :| Stand(r, i, j, a, b) {
      assert Stand(list, if i < n then i else i + 1, if j < n then j else j + 1, a, b);
    }
    if i, j :| Stand(list, i, j, a, b) {
      assert Stand(r, if i < n then i else i - 1, if j < n then j else j - 1, a, b);
    }
  }

  lemma BeforeListed(list: seq<nat>, a: nat, b: nat)
    ensures Before(list, a, b) ==> a in list && b in list
  {
    if i, j :| Stand(list, i, j, a, b) {
      assert list[i] in list && list[j] in list;
    }
  }

  lemma BeforeWithout(list: seq<nat>, k: nat, a: nat, b: nat)
    requires Distinct(list) && k in list
    ensures Before(Without(list, k), a, b) <==> Before(list, a, b) && a != k && b != k
  {
    WithoutDistinct(list, k);
    hide Distinct, Before;
    if a == k || b == k {
      BeforeListed(Without(list, k), a, b);
    } else {
      BeforeCut(list, MixSlots.First(list, k, 0), a, b);
    }
  }

  /** The list is kept in the order of opening, so that "oldest" means what it says: whoever is let in becomes
      the last, and of all others only a victim, or the one who closed, leaves its place. */
  lemma LastOpenedIsLast(s: State, d: nat, want: int, a: nat, b: nat)
    requires Inv(s) && d < |s.kind|
    ensures
      var (t, ok) := Answer(s, d, want);
      var evicts := AsksToOpen(s, d, want) && !HasRoom(s, d) && Victim(s) < |s.list|;
      && (ok && AsksToOpen(s, d, want) ==> t.list != [] && t.list[|t.list| - 1] == d)
      && (!AsksToOpen(s, d, want) && want != 0 ==> t.list == s.list)
      && (a != d && b != d ==>
            (Before(t.list, a, b) <==>
              Before(s.list, a, b) && !(evicts && (a == s.list[Victim(s)] || b == s.list[Victim(s)]))))
  {
    AdmitSays(s, d);
    assert Shaped(s) && Distinct(s.list) && (s.open[d] <==> d in s.list);
    hide Admit, Without, MixSlots.Add, MixSlots.Rm, Inv, HasRoom, Victim, Before, Distinct;
    if a != d && b != d {
      if want == 0 && s.open[d] {
        BeforeWithout(s.list, d, a, b);
      } else if AsksToOpen(s, d, want) {
        if HasRoom(s, d) {
          BeforeAppend(s.list, d, a, b);
        } else if Victim(s) < |s.list| {
          BeforeWithout(s.list, s.list[Victim(s)], a, b);
          BeforeAppend(Without(s.list, s.list[Victim(s)]), d, a, b);
        }
      }
    }
  }

  /** A device whose time ran out is dead and its microphone closed; no other device is touched. */
  lemma DieTells(s: State, d: nat, a: nat, b: nat)
    requires Inv(s) && d < |s.kind|
    ensures
      var t := Die(s, d);
      && t.active == s.active[d := false] && t.kind == s.kind && t.mode == s.mode && t.maxUser == s.maxUser
      && t.open == s.open[d := s.open[d] && !s.active[d]]
      && (s.active[d] ==> (Before(t.list, a, b) <==> Before(s.list, a, b) && a != d && b != d))
      && (s.active[d] ==> (d !in t.list && forall e :: e != d ==> (e in t.list <==> e in s.list)))
  {
    assert Shaped(s) && Distinct(s.list) && (s.open[d] <==> d in s.list);
    hide Without, MixSlots.Rm, Inv;
    if s.active[d] && s.open[d] {
      BeforeWithout(s.list, d, a, b);
      WithoutDistinct(s.list, d);
    }
  }

  // ---------- open microphones and mixing slots ----------

  /** Every open microphone has a mixing slot, and there are as many of the one as of the other. */
  ghost predicate AllHeard(s: State)
    requires Shaped(s)
  {
    && s.mix.count == s.openUser
    && forall d :: 0 <= d < |s.open| && s.open[d] ==> s.mix.mixbit[d] != 0
  }

  lemma OpeningSlots(s: State, d: nat)
    requires SlotsOpen(s) && d < |s.kind|
    ensures SlotsOpen(Opening(s, d))
  {
    MixSlots.AddKeepsSlots(s.mix, d, s.net);
    MixSlots.AddAlone(s.mix, d, s.net);
    hide MixSlots.SlotsAgree, MixSlots.Add, MixSlots.Shaped;
  }

  /** One more open microphone is heard exactly while there are no more than the slots. */
  lemma OpeningHeard(s: State, d: nat)
    requires SlotsOpen(s) && d < |s.kind| && s.mix.mixbit[d] == 0 && AllHeard(s)
    ensures AllHeard(Opening(s, d)) <==> Opening(s, d).openUser <= MixSlots.MAX_MIX
  {
    MixSlots.AddAlone(s.mix, d, s.net);
    var t := Opening(s, d);
    hide MixSlots.SlotsAgree, MixSlots.Add, MixSlots.Shaped;
    if t.openUser <= MixSlots.MAX_MIX {
      forall e | 0 <= e < |t.open| && t.open[e] ensures t.mix.mixbit[e] != 0 {
      }
    }
  }

  lemma ClosingSlots(s: State, d: nat)
    requires SlotsOpen(s) && d < |s.kind|
    ensures SlotsOpen(Closing(s, d))
  {
    MixSlots.RmKeepsSlots(s.mix, d, s.net);
    MixSlots.RmAlone(s.mix, d, s.net);
    hide MixSlots.SlotsAgree, MixSlots.Rm, Without, MixSlots.Shaped;
  }

  lemma ClosingHeard(s: State, d: nat)
    requires SlotsOpen(s) && d < |s.kind| && AllHeard(s) && s.open[d]
    ensures AllHeard(Closing(s, d))
  {
    var t := Closing(s, d);
    MixSlots.RmAlone(s.mix, d, s.net);
    hide MixSlots.SlotsAgree, MixSlots.Rm, Without, MixSlots.Shaped;
    forall e | 0 <= e < |t.open| && t.open[e] ensures t.mix.mixbit[e] != 0 {
    }
  }

  lemma CloseKeepsHeard(s: State, d: nat)
    requires SlotsOpen(s) && d < |s.kind| && s.open[d]
    ensures SlotsOpen(Closing(s, d)) && (AllHeard(s) ==> AllHeard(Closing(s, d)))
  {
    ClosingSlots(s, d);
    hide Closing;
    if AllHeard(s) {
      ClosingHeard(s, d);
    }
  }

  /** When the request of d would make a ninth open microphone: eight are open already, and the chairs
      met before the first dead speaker make room below maxuser. */
  predicate NinthLetIn(s: State, d: nat, want: int)
    requires Shaped(s) && d < |s.kind|
  {
    && want != 0 && !s.open[d] && s.openUser == MixSlots.MAX_MIX
    && s.openUser - ChairsIn(s, 0, FirstDead(s, 0)) < s.maxUser
  }

  lemma AnswerSize(s: State, d: nat, want: int)
    requires Shaped(s) && d < |s.kind| && s.openUser <= MixSlots.MAX_MIX && !ListsTwice(s, d, want)
    ensures Answer(s, d, want).0.openUser <= MixSlots.MAX_MIX <==> !NinthLetIn(s, d, want)
  {
    AdmissionRule(s, d);
    hide Admit, Without, MixSlots.Add, MixSlots.Rm;
  }

  /** A request keeps everybody heard, unless it lets a ninth microphone in. */
  lemma AnswerSlots(s: State, d: nat, want: int)
    requires Inv(s) && SlotsOpen(s) && d < |s.kind|
    ensures SlotsOpen(Answer(s, d, want).0)
    ensures AllHeard(s) && !ListsTwice(s, d, want) ==>
              (AllHeard(Answer(s, d, want).0) <==> !NinthLetIn(s, d, want))
  {
    AnswerSlotsBySize(s, d, want);
    HeardFit(s);
    hide Answer, Inv, SlotsOpen, NinthLetIn, ListsTwice;
    if AllHeard(s) && !ListsTwice(s, d, want) {
      AnswerSize(s, d, want);
    }
  }

  lemma AnswerSlotsBySize(s: State, d: nat, want: int)
    requires Inv(s) && SlotsOpen(s) && d < |s.kind|
    ensures SlotsOpen(Answer(s, d, want).0)
    ensures AllHeard(s) && !ListsTwice(s, d, want) ==>
              (AllHeard(Answer(s, d, want).0) <==> Answer(s, d, want).0.openUser <= MixSlots.MAX_MIX)
  {
    HeardFit(s);
    if want == (if s.open[d] then 1 else 0) {
      hide SlotsOpen, AllHeard;
      if want != 0 { ReopenSlots(s, d); }
    } else if want == 0 {
      hide SlotsOpen, AllHeard;
      CloseKeepsHeard(s, d);
      HeardFit(Closing(s, d));
    } else {
      hide SlotsOpen, AllHeard, Answer;
      LetInSlots(s, d, want);
    }
  }

  lemma LetInSlots(s: State, d: nat, want: int)
    requires Inv(s) && SlotsOpen(s) && d < |s.kind| && want != 0 && want != (if s.open[d] then 1 else 0)
    ensures SlotsOpen(Answer(s, d, want).0)
    ensures AllHeard(s) && !ListsTwice(s, d, want) ==>
              (AllHeard(Answer(s, d, want).0) <==> Answer(s, d, want).0.openUser <= MixSlots.MAX_MIX)
  {
    ChairNeverEvicted(s, d);
    assert Admit(s, d).Evict? ==> s.open[Admit(s, d).k];
    hide Inv, MixSlots.Add, MixSlots.Rm, Admit, Without, SlotsOpen, AllHeard, Opening, Closing, Shaped;
    if AllHeard(s) {
      HeardFit(s);
    }
    match Admit(s, d)
    case Reject =>
    case Put => AdmitSlots(s, s, d);
    case Evict(k) => EvictSlots(s, k, d);
  }

  lemma EvictSlots(s: State, k: nat, d: nat)
    requires SlotsOpen(s) && k < |s.kind| && d < |s.kind| && s.open[k]
    ensures SlotsOpen(Opening(Closing(s, k), d))
    ensures AllHeard(s) && (k == d || !s.open[d]) ==>
              (AllHeard(Opening(Closing(s, k), d)) <==> Opening(Closing(s, k), d).openUser <= MixSlots.MAX_MIX)
  {
    CloseKeepsHeard(s, k);
    hide MixSlots.Add, MixSlots.Rm, Without, SlotsOpen, AllHeard, Opening;
    AdmitSlots(s, Closing(s, k), d);
  }

  /** Opening d after s became t, by evicting somebody or not. */
  lemma AdmitSlots(s: State, t: State, d: nat)
    requires Shaped(s) && SlotsOpen(t) && d < |t.kind| && (AllHeard(s) ==> AllHeard(t))
    ensures SlotsOpen(Opening(t, d))
    ensures AllHeard(s) && !t.open[d] ==>
              (AllHeard(Opening(t, d)) <==> Opening(t, d).openUser <= MixSlots.MAX_MIX)
  {
    OpeningSlots(t, d);
    hide Opening, MixSlots.SlotsAgree;
    if AllHeard(s) && !t.open[d] {
      OpeningHeard(t, d);
    }
  }

  lemma HeardFit(s: State)
    requires SlotsOpen(s)
    ensures AllHeard(s) ==> s.openUser <= MixSlots.MAX_MIX
  {
    MixSlots.CountSaysFull(s.mix);
  }

  /** Asking again for an open microphone only asks again for its slot. */
  lemma ReopenSlots(s: State, d: nat)
    requires SlotsOpen(s) && d < |s.kind| && s.open[d]
    ensures SlotsOpen(s.(mix := MixSlots.Add(s.mix, d, s.net)))
    ensures AllHeard(s) ==> s.(mix := MixSlots.Add(s.mix, d, s.net)) == s
  {
    MixSlots.AddKeepsSlots(s.mix, d, s.net);
    MixSlots.AddAlone(s.mix, d, s.net);
    hide MixSlots.SlotsAgree;
  }

  /** Told OK to open, or asking again for an open microphone, a device has a mixing slot unless all eight are
      taken by others; told OK to close, it has none. */
  lemma AnswerSeats(s: State, d: nat, want: int)
    requires Inv(s) && SlotsOpen(s) && d < |s.kind| && Answer(s, d, want).1
    ensures
      var t := Answer(s, d, want).0;
      if want == 0 then t.mix.mixbit[d] == 0
      else t.mix.mixbit[d] != 0 || (t.mix.count == MixSlots.MAX_MIX && forall i :: 0 <= i < 8 ==> t.mix.slots[i] != d)
  {
    assert Shaped(s);
    hide Inv, SlotsOpen, Admit, Without, MixSlots.Rm;
    if want == (if s.open[d] then 1 else 0) {
      if want != 0 { SeatedOrFull(s.mix, d, s.net) by { SlotsAgreeThere(s); } }
      else { ClosedUnseated(s, d); }
    } else if want == 0 {
      RmLeaves(s, d);
    } else {
      SlotsAgreeThere(s);
      match Admit(s, d)
      case Put => SeatedOrFull(s.mix, d, s.net);
      case Evict(k) =>
        MixSlots.RmKeepsSlots(s.mix, k, s.net);
        SeatedOrFull(MixSlots.Rm(s.mix, k, s.net), d, s.net);
      case Reject =>
    }
  }

  lemma SlotsAgreeThere(s: State)
    requires SlotsOpen(s)
    ensures MixSlots.SlotsAgree(s.mix) && Shaped(s)
  {
  }

  lemma ClosedUnseated(s: State, d: nat)
    requires SlotsOpen(s) && d < |s.open| && !s.open[d]
    ensures s.mix.mixbit[d] == 0
  {
  }

  lemma RmLeaves(s: State, d: nat)
    requires SlotsOpen(s) && d < |s.kind|
    ensures MixSlots.Rm(s.mix, d, s.net).mixbit[d] == 0
  {
    MixSlots.RmAlone(s.mix, d, s.net);
    hide MixSlots.Rm, MixSlots.SlotsAgree;
  }

  lemma SeatedOrFull(m: MixSlots.State, d: nat, net: bool)
    requires MixSlots.SlotsAgree(m) && d < |m.res|
    ensures
      var t := MixSlots.Add(m, d, net);
      t.mixbit[d] != 0 || (t.count == MixSlots.MAX_MIX && forall i :: 0 <= i < 8 ==> t.slots[i] != d)
  {
    MixSlots.AddAlone(m, d, net);
    MixSlots.CountSaysFull(m);
    forall i | 0 <= i < 8 && m.slots[i] == d ensures m.mixbit[d] > 0 {
      assert m.mixbit[m.slots[i]] == MixSlots.Bit(i);
    }
  }

  lemma DieSlots(s: State, d: nat)
    requires SlotsOpen(s) && d < |s.kind|
    ensures SlotsOpen(Die(s, d))
    ensures AllHeard(s) ==> AllHeard(Die(s, d))
  {
    hide MixSlots.SlotsAgree, MixSlots.Rm, Without;
    if s.active[d] && s.open[d] {
      CloseKeepsHeard(s.(active := s.active[d := false]), d);
    }
  }

  lemma InitKeeps(kind: seq<int>, mode: int, maxUser: int, net: bool)
    ensures Inv(Init(kind, mode, maxUser, net)) && SlotsOpen(Init(kind, mode, maxUser, net))
    ensures AllHeard(Init(kind, mode, maxUser, net))
  {
    MixSlots.InitInv(|kind|, net);
    hide MixSlots.SlotsAgree;
  }

  lemma PutThrough(s: State, d: nat)
    requires Shaped(s) && d < |s.kind| && !s.open[d] && s.openUser < s.maxUser
    ensures Answer(s, d, 1).0 == Opening(s, d)
  {
    hide Opening;
    assert Admit(s, d) == Put;
  }

  lemma PastTheChair(t: State, d: nat)
    requires Inv(t) && SlotsOpen(t) && AllHeard(t) && d < |t.kind| && !t.open[d]
    requires t.openUser == t.maxUser == 8 && Chair(t, t.list[0])
    ensures Answer(t, d, 1).0 == Opening(t, d) && Opening(t, d).mix.mixbit[d] == 0
  {
    MixSlots.AddAlone(t.mix, d, t.net);
    hide MixSlots.SlotsAgree, MixSlots.Add;
    assert Scan(t, 0, 8, NOBODY) == Put;
  }
}
