/** serv/packet.c: the lockless packet cache, one byte of use per slot and a hint where to look. */
module PacketCache {

  const PACK_COUNT := 1024

  /** (i+1) & COUNT_MASK */
  function Next(i: nat): (r: nat)
    requires i < PACK_COUNT
    ensures r < PACK_COUNT
  {
    if i + 1 == PACK_COUNT then 0 else i + 1
  }

  /** Slot i as met d steps after slot p. */
  function Ahead(p: nat, d: nat): (r: nat)
    requires p < PACK_COUNT && d <= PACK_COUNT
    ensures r < PACK_COUNT
  {
    if p + d < PACK_COUNT then p + d else p + d - PACK_COUNT
  }

  /** The cache as one thread uses it. */
  class Cache {
    const use: array<bool>
    var pos: nat

    ghost predicate Valid()
      reads this
    {
      use.Length == PACK_COUNT && pos < PACK_COUNT
    }

    constructor ()
      ensures Valid() && fresh(use) && forall i :: 0 <= i < PACK_COUNT ==> !use[i]
    {
      use := new bool[PACK_COUNT](_ => false);
      pos := 0;
    }

    /** pack_get_cache, -1 for NULL: the first free slot going round from the hint; NULL exactly when
        every slot is in use. */
    method Get() returns (slot: int)
      requires Valid()
      modifies this`pos, use
      ensures Valid() && -1 <= slot < PACK_COUNT
      ensures slot == -1 <==> forall i :: 0 <= i < PACK_COUNT ==> old(use[i])
      ensures slot == -1 ==> pos == old(pos) && use[..] == old(use[..])
      ensures slot >= 0 ==>
                && use[..] == old(use[..])[slot := true] && !old(use[slot]) && pos == Next(slot)
                && exists d :: 0 <= d < PACK_COUNT && slot == Ahead(old(pos), d)
                               && forall k :: 0 <= k < d ==> old(use[Ahead(pos, k)])
    {
      var p := pos;
      if !use[p] {
        pos := Next(p);
        use[p] := true;
        assert p == Ahead(p, 0);
        return p;
      }
      var i := Next(p);
      ghost var d := 1;
      assert use[Ahead(p, 0)];
      while i != p
        invariant i < PACK_COUNT && 1 <= d <= PACK_COUNT && i == Ahead(p, d)
        invariant i == p <==> d == PACK_COUNT
        invariant pos == old(pos) == p && use[..] == old(use[..])
        invariant forall k :: 0 <= k < d ==> use[Ahead(p, k)]
        decreases PACK_COUNT - d
      {
        if !use[i] {
          pos := Next(i);
          use[i] := true;
          return i;
        }
        i := Next(i);
        d := d + 1;
      }
      forall j | 0 <= j < PACK_COUNT ensures use[j] {
        var k := if j >= p then j - p else j + PACK_COUNT - p;
        assert Ahead(p, k) == j;
      }
      return -1;
    }

    /** pack_free_cache */
    method Free(slot: nat)
      requires Valid() && slot < PACK_COUNT
      modifies this`pos, use
      ensures Valid() && use[..] == old(use[..])[slot := false] && pos == slot
    {
      use[slot] := false;
      pos := slot;
    }

    /** A freed slot is the next one handed out. */
    method FreeThenGet(slot: nat) returns (again: int)
      requires Valid() && slot < PACK_COUNT
      modifies this`pos, use
      ensures Valid() && again == slot
    {
      Free(slot);
      assert !use[Ahead(pos, 0)];
      again := Get();
    }
  }
}

/** One allocating thread and any number of freeing threads, one step per read or write of
    cache_use and cache_pos. */
module PacketCacheInterleaved {
  import opened PacketCache

  datatype AllocPc =
    | Ready                  // about to read cache_pos
    | TestHit(p: nat)        // about to test cache_use[p]
    | Scan(i: nat, p: nat)   // about to test cache_use[i], started at p
    | TakePos(i: nat)        // found i free, about to move cache_pos past it
    | TakeUse(i: nat)        // about to set cache_use[i]

  /** `live` counts the packets handed out per slot; `clearing` the pack_free calls that have not yet
      cleared the byte; `hinting` those that have not yet written cache_pos. */
  datatype State = State(
    use: seq<bool>, pos: nat, alloc: AllocPc,
    live: multiset<nat>, clearing: multiset<nat>, hinting: multiset<nat>)

  datatype Step = Alloc | BeginFree(i: nat) | ClearUse(i: nat) | SetPos(i: nat)

  function Init(): State {
    State(seq(PACK_COUNT, _ => false), 0, Ready, multiset{}, multiset{}, multiset{})
  }

  predicate Shaped(s: State) {
    && |s.use| == PACK_COUNT && s.pos < PACK_COUNT
    && (match s.alloc
        case Ready => true
        case TestHit(p) => p < PACK_COUNT
        case Scan(i, p) => i < PACK_COUNT && p < PACK_COUNT
        case TakePos(i) => i < PACK_COUNT
        case TakeUse(i) => i < PACK_COUNT)
  }

  /** A packet is freed only by its holder, once. */
  predicate Enabled(s: State, step: Step) {
    match step
    case Alloc => true
    case BeginFree(i) => i in s.live
    case ClearUse(i) => i in s.clearing && i < |s.use|
    case SetPos(i) => i in s.hinting
  }

  function Apply(s: State, step: Step): State
    requires Shaped(s) && Enabled(s, step)
  {
    match step
    case Alloc =>
      (match s.alloc
       case Ready => s.(alloc := TestHit(s.pos))
       case TestHit(p) => s.(alloc := if s.use[p] then Scan(Next(p), p) else TakePos(p))
       case Scan(i, p) => s.(alloc := if i == p then Ready else if s.use[i] then Scan(Next(i), p) else TakePos(i))
       case TakePos(i) => s.(pos := Next(i), alloc := TakeUse(i))
       case TakeUse(i) => s.(use := s.use[i := true], alloc := Ready, live := s.live + multiset{i}))
    case BeginFree(i) => s.(live := s.live - multiset{i}, clearing := s.clearing + multiset{i})
    case ClearUse(i) =>
      s.(use := s.use[i := false], clearing := s.clearing - multiset{i}, hinting := s.hinting + multiset{i})
    case SetPos(i) => s.(pos := i, hinting := s.hinting - multiset{i})
  }

  predicate Run(s: State, steps: seq<Step>, t: State)
    decreases |steps|
  {
    if steps == [] then s == t
    else Shaped(s) && Enabled(s, steps[0]) && Run(Apply(s, steps[0]), steps[1..], t)
  }

  /** A byte is set exactly while its slot is with one holder or one unfinished pack_free. */
  ghost predicate Inv(s: State) {
    && Shaped(s)
    && (forall i :: 0 <= i < PACK_COUNT ==> s.live[i] + s.clearing[i] == if s.use[i] then 1 else 0)
    && (forall i :: i in s.live || i in s.clearing || i in s.hinting ==> i < PACK_COUNT)
    && (s.alloc.TakePos? || s.alloc.TakeUse? ==> !s.use[s.alloc.i])
  }

  lemma AllocKeepsInv(s: State)
    requires Inv(s)
    ensures Inv(Apply(s, Alloc))
  {
    var s' := Apply(s, Alloc);
    forall i | 0 <= i < PACK_COUNT
      ensures s'.live[i] + s'.clearing[i] == if s'.use[i] then 1 else 0
    {
      assert s.live[i] + s.clearing[i] == if s.use[i] then 1 else 0;
    }
  }

  lemma BeginFreeKeepsInv(s: State, f: nat)
    requires Inv(s) && Enabled(s, BeginFree(f))
    ensures Inv(Apply(s, BeginFree(f)))
  {
    var s' := Apply(s, BeginFree(f));
    forall i | 0 <= i < PACK_COUNT
      ensures s'.live[i] + s'.clearing[i] == if s'.use[i] then 1 else 0
    {
      assert s.live[i] + s.clearing[i] == if s.use[i] then 1 else 0;
    }
  }

  lemma ClearUseKeepsInv(s: State, f: nat)
    requires Inv(s) && Enabled(s, ClearUse(f))
    ensures Inv(Apply(s, ClearUse(f)))
  {
    var s' := Apply(s, ClearUse(f));
    forall i | 0 <= i < PACK_COUNT
      ensures s'.live[i] + s'.clearing[i] == if s'.use[i] then 1 else 0
    {
      assert s.live[i] + s.clearing[i] == if s.use[i] then 1 else 0;
    }
  }

  lemma SetPosKeepsInv(s: State, f: nat)
    requires Inv(s) && Enabled(s, SetPos(f))
    ensures Inv(Apply(s, SetPos(f)))
  {
  }

  lemma StepKeepsInv(s: State, step: Step)
    requires Inv(s) && Enabled(s, step)
    ensures Inv(Apply(s, step))
  {
    hide Inv, Apply;
    match step
    case Alloc => AllocKeepsInv(s);
    case BeginFree(f) => BeginFreeKeepsInv(s, f);
    case ClearUse(f) => ClearUseKeepsInv(s, f);
    case SetPos(f) => SetPosKeepsInv(s, f);
  }

  lemma {:induction false} RunKeepsInv(s: State, steps: seq<Step>, t: State)
    requires Inv(s) && Run(s, steps, t)
    ensures Inv(t)
    decreases |steps|
  {
    if steps != [] {
      StepKeepsInv(s, steps[0]);
      RunKeepsInv(Apply(s, steps[0]), steps[1..], t);
    }
  }

  /** In every interleaving no slot is with two live packets, a slot about to be handed out is with
      none and has no unfinished free, the hint stays in range, and a set byte always has its owner. */
  lemma LivePacketsDistinct(steps: seq<Step>, t: State)
    requires Run(Init(), steps, t)
    ensures t.pos < PACK_COUNT && |t.use| == PACK_COUNT
    ensures forall i :: t.live[i] <= 1
    ensures t.alloc.TakeUse? ==> t.live[t.alloc.i] == 0 && t.clearing[t.alloc.i] == 0
    ensures forall i :: 0 <= i < PACK_COUNT ==> (t.use[i] <==> i in t.live || i in t.clearing)
  {
    RunKeepsInv(Init(), steps, t);
    forall i: nat ensures t.live[i] <= 1 {
      if i in t.live {
        assert t.live[i] + t.clearing[i] == if t.use[i] then 1 else 0;
      }
    }
  }

  // ---------- a thread alone ----------

  /** n accesses of the allocator and none of any other thread. */
  function Allocs(s: State, n: nat): (t: State)
    requires Shaped(s)
    ensures Shaped(t)
  {
    if n == 0 then s else Apply(Allocs(s, n - 1), Alloc)
  }

  lemma {:induction false} Scanning(s: State, d: nat)
    requires Shaped(s) && s.alloc.Ready? && 1 <= d <= PACK_COUNT && forall k :: 0 <= k < d ==> s.use[Ahead(s.pos, k)]
    ensures Allocs(s, d + 1) == s.(alloc := Scan(Ahead(s.pos, d), s.pos))
  {
    if d == 1 {
      assert Ahead(s.pos, 0) == s.pos;
      assert Allocs(s, 0) == s && Allocs(s, 1) == s.(alloc := TestHit(s.pos));
    } else {
      Scanning(s, d - 1);
      assert s.use[Ahead(s.pos, d - 1)];
      assert Next(Ahead(s.pos, d - 1)) == Ahead(s.pos, d);
    }
  }

  /** The allocator alone takes the first free slot going round from the hint, d steps from it, and leaves the
      hint behind it. */
  lemma TakesFirstFree(s: State, d: nat) returns (n: nat)
    requires Shaped(s) && s.alloc.Ready? && d < PACK_COUNT && !s.use[Ahead(s.pos, d)]
    requires forall k :: 0 <= k < d ==> s.use[Ahead(s.pos, k)]
    ensures
      var i := Ahead(s.pos, d);
      Allocs(s, n) == s.(use := s.use[i := true], pos := Next(i), live := s.live + multiset{i})
  {
    var i := Ahead(s.pos, d);
    if d == 0 {
      assert Allocs(s, 0) == s && Allocs(s, 1) == s.(alloc := TestHit(s.pos));
      assert Allocs(s, 2) == s.(alloc := TakePos(i));
      n := 4;
    } else {
      Scanning(s, d);
      assert i != s.pos;
      n := d + 4;
      hide Ahead;
    }
    assert Allocs(s, n - 2) == s.(alloc := TakePos(i));
    assert Allocs(s, n - 1) == s.(pos := Next(i), alloc := TakeUse(i));
  }

  /** And gives up, changing nothing, when all are in use. */
  lemma GivesUpWhenFull(s: State) returns (n: nat)
    requires Shaped(s) && s.alloc.Ready? && forall i :: 0 <= i < PACK_COUNT ==> s.use[i]
    ensures n > 0 && Allocs(s, n) == s
  {
    Scanning(s, PACK_COUNT);
    assert Ahead(s.pos, PACK_COUNT) == s.pos;
    n := PACK_COUNT + 2;
    assert Allocs(s, n - 1) == s.(alloc := Scan(s.pos, s.pos));
  }

  /** A freeing thread alone clears its slot and points the hint at it. */
  lemma FreesAlone(s: State, i: nat)
    requires Shaped(s) && i in s.live && i < PACK_COUNT
    ensures
      var a := Apply(s, BeginFree(i));
      && Shaped(a) && Enabled(a, ClearUse(i))
      && var b := Apply(a, ClearUse(i));
         && Shaped(b) && Enabled(b, SetPos(i))
         && Apply(b, SetPos(i)) == s.(use := s.use[i := false], pos := i, live := s.live - multiset{i})
  {
  }
}
