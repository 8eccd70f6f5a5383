/** The floor of Floor.dfy with its threads side by side. Requests come one at a time, under the lock of
    serv/cmd_handler.c, but serv/hbeat.c works beside them: it marks a silent device dead, looks at its
    open flag without any lock, and closes the microphone. add_open and del_open are one step each, under
    the tag's own lock; every other look of a request at the counter, the list or a device is a step of
    its own, and so is each of the heartbeat's three. */
module FloorInterleaved {
  import opened Seqs
  import MixSlots
  import F = Floor

  const NOBODY := MixSlots.NOBODY

  /** Where the request of d stands. The walk over the open list is at entry k. */
  datatype Cmd =
    | Ready
    | Restoring(d: nat)              // open already: about to ask for its slot again
    | AtChair(d: nat)                // about to compare openuser with the eight slots
    | AtRoom(d: nat)                 // about to compare openuser with maxuser
    | AtWalk(d: nat)                 // about to copy openuser
    | Starting(d: nat, counted: int) // about to take the first entry
    | Looking(d: nat, k: nat, counted: int, kick: int)
    | Leaving(d: nat, k: nat, counted: int, kick: int) // about to follow the link of k
    | Choosing(d: nat, kick: int)
    | Evicting(d: nat, k: nat)       // about to call del_open(k)
    | Adding(d: nat)                 // about to call add_open(d)
    | Dropping(d: nat)               // about to call del_open(d)
    | Astray                         // followed the NULL link of an entry that was unlinked

  datatype Beat =
    | Resting
    | Testing(k: nat) // marked dead, about to look at the open flag
    | Closing(k: nat) // about to call del_open(k)

  /** `twice` counts the del_open calls on a microphone already closed. list_del then follows links that
      the first call set to NULL; here the list stays as it is and the counter goes down once more. */
  datatype Machine = Machine(s: F.State, cmd: Cmd, beat: Beat, twice: nat)

  datatype Step =
    | Begin(d: nat, want: int)        // a request
    | Go                              // the next access of the request
    | Mark(k: nat)                    // the time of k ran out
    | Beat                            // the next access of the heartbeat
    | Wake(d: nat)                    // a registration or a sign of life
    | Watch(i: nat, empty: seq<bool>) // the casting thread's look at slot i
    | Addresses(res: seq<nat>, avail: seq<bool>) // the net mixer's addresses change hands
    | SetMode(mode: int)

  predicate Within(c: Cmd, n: nat) {
    match c
    case Ready => true
    case Restoring(d) => d < n
    case AtChair(d) => d < n
    case AtRoom(d) => d < n
    case AtWalk(d) => d < n
    case Starting(d, _) => d < n
    case Looking(d, k, _, kick) => d < n && k < n && NOBODY <= kick < n
    case Leaving(d, k, _, kick) => d < n && k < n && NOBODY <= kick < n
    case Choosing(d, kick) => d < n && NOBODY <= kick < n
    case Evicting(d, k) => d < n && k < n
    case Adding(d) => d < n
    case Dropping(d) => d < n
    case Astray => true
  }

  predicate Shaped(m: Machine) {
    && F.Shaped(m.s) && Within(m.cmd, |m.s.kind|)
    && (m.beat.Testing? || m.beat.Closing? ==> m.beat.k < |m.s.kind|)
  }

  predicate Enabled(m: Machine, step: Step) {
    var n := |m.s.kind|;
    match step
    case Begin(d, _) => m.cmd == Ready && d < n
    case Go => m.cmd != Ready && m.cmd != Astray
    case Mark(k) => m.beat == Resting && k < n && k < |m.s.active| && m.s.active[k]
    case Beat => m.beat != Resting
    case Wake(d) => d < n
    case Watch(i, empty) => i < MixSlots.MAX_MIX && |empty| == n
    case Addresses(res, avail) => |res| == n && |avail| == MixSlots.MAX_MIX
    case SetMode(_) => m.cmd == Ready
  }

  /** del_open by either thread, which then stands at the new place. */
  function Close(m: Machine, k: nat): (t: Machine)
    requires Shaped(m) && k < |m.s.kind|
    ensures Shaped(t) && t.cmd == m.cmd && t.beat == m.beat
  {
    m.(s := F.Closing(m.s, k), twice := m.twice + if m.s.open[k] then 0 else 1)
  }

  /** The walk's look at entry k: a chair does not count, a dead speaker is taken at once, the first
      live one is remembered. */
  function Look(s: F.State, d: nat, k: nat, counted: int, kick: int): (c: Cmd)
    requires F.Shaped(s) && d < |s.kind| && k < |s.kind| && NOBODY <= kick < |s.kind|
    ensures Within(c, |s.kind|)
  {
    if F.Chair(s, k) then
      if counted - 1 < s.maxUser then Adding(d) else Leaving(d, k, counted - 1, kick)
    else if !s.active[k] then Choosing(d, k)
    else Leaving(d, k, counted, if kick == NOBODY then k else kick)
  }

  /** The entry behind k, the end of the list, or nowhere. */
  function Follow(s: F.State, d: nat, k: nat, counted: int, kick: int): (c: Cmd)
    requires F.Shaped(s) && d < |s.kind| && NOBODY <= kick < |s.kind|
    ensures Within(c, |s.kind|)
  {
    var i := MixSlots.First(s.list, k, 0);
    if i == |s.list| then Astray
    else if i + 1 == |s.list| then Choosing(d, kick)
    else Looking(d, s.list[i + 1], counted, kick)
  }

  function Went(m: Machine): (t: Machine)
    requires Shaped(m) && m.cmd != Ready && m.cmd != Astray
    ensures Shaped(t) && t.beat == m.beat
    ensures t.s.kind == m.s.kind && t.s.maxUser == m.s.maxUser && t.s.net == m.s.net
  {
    var s := m.s;
    match m.cmd
    case Restoring(d) => m.(s := s.(mix := MixSlots.Add(s.mix, d, s.net)), cmd := Ready)
    case AtChair(d) =>
      m.(cmd := if F.Chair(s, d) && s.openUser < MixSlots.MAX_MIX then Adding(d) else AtRoom(d))
    case AtRoom(d) => m.(cmd := if s.openUser < s.maxUser then Adding(d) else AtWalk(d))
    case AtWalk(d) => m.(cmd := Starting(d, s.openUser))
    case Starting(d, counted) =>
      m.(cmd := if s.list == [] then Choosing(d, NOBODY) else Looking(d, s.list[0], counted, NOBODY))
    case Looking(d, k, counted, kick) => m.(cmd := Look(s, d, k, counted, kick))
    case Leaving(d, k, counted, kick) => m.(cmd := Follow(s, d, k, counted, kick))
    case Choosing(d, kick) =>
      m.(cmd := if kick == NOBODY || (s.active[kick] && s.mode != F.DISCMODE_FIFO) then Ready else Evicting(d, kick))
    case Evicting(d, k) => Close(m, k).(cmd := Adding(d))
    case Adding(d) => m.(s := F.Opening(s, d), cmd := Ready)
    case Dropping(d) => Close(m, d).(cmd := Ready)
  }

  function Apply(m: Machine, step: Step): (t: Machine)
    requires Shaped(m) && Enabled(m, step)
    ensures Shaped(t)
    ensures t.s.kind == m.s.kind && t.s.maxUser == m.s.maxUser && t.s.net == m.s.net
  {
    var s := m.s;
    match step
    case Begin(d, want) =>
      m.(cmd := if want == (if s.open[d] then 1 else 0) then if want != 0 then Restoring(d) else Ready
                else if want == 0 then Dropping(d)
                else AtChair(d))
    case Go => Went(m)
    case Mark(k) => m.(s := s.(active := s.active[k := false]), beat := Testing(k))
    case Beat =>
      if m.beat.Testing? then m.(beat := if s.open[m.beat.k] then Closing(m.beat.k) else Resting)
      else Close(m, m.beat.k).(beat := Resting)
    case Wake(d) => m.(s := s.(active := s.active[d := true]))
    case Watch(i, empty) => m.(s := s.(mix := MixSlots.Watch(s.mix, empty, i, s.net)))
    case Addresses(res, avail) => m.(s := s.(mix := s.mix.(res := res, avail := avail)))
    case SetMode(mode) => m.(s := s.(mode := mode))
  }

  function Start(kind: seq<int>, mode: int, maxUser: int, net: bool): (m: Machine)
    ensures Shaped(m)
  {
    Machine(F.Init(kind, mode, maxUser, net), Ready, Resting, 0)
  }

  predicate Runs(m: Machine, steps: seq<Step>)
    requires Shaped(m)
    decreases |steps|
  {
    steps == [] || (Enabled(m, steps[0]) && Runs(Apply(m, steps[0]), steps[1..]))
  }

  function After(m: Machine, steps: seq<Step>): (t: Machine)
    requires Shaped(m) && Runs(m, steps)
    ensures Shaped(t)
    ensures t.s.kind == m.s.kind && t.s.maxUser == m.s.maxUser && t.s.net == m.s.net
    decreases |steps|
  {
    if steps == [] then m else After(Apply(m, steps[0]), steps[1..])
  }

  // ---------- what goes wrong ----------

  /** del_open on a microphone that the other thread closed in the meantime. */
  predicate ClosesTwice(m: Machine, step: Step)
    requires Shaped(m) && Enabled(m, step)
  {
    (step.Go? && m.cmd.Evicting? && !m.s.open[m.cmd.k])
    || (step.Go? && m.cmd.Dropping? && !m.s.open[m.cmd.d])
    || (step.Beat? && m.beat.Closing? && !m.s.open[m.beat.k])
  }

  /** add_open on a microphone that is open: the request had a number other than 0 and 1. */
  predicate Relinks(m: Machine, step: Step)
    requires Shaped(m) && Enabled(m, step)
  {
    step.Go? && m.cmd.Adding? && m.s.open[m.cmd.d]
  }

  /** The slot of an open microphone is asked for again after the heartbeat closed it. */
  predicate Reseats(m: Machine, step: Step)
    requires Shaped(m) && Enabled(m, step)
  {
    step.Go? && m.cmd.Restoring? && !m.s.open[m.cmd.d] && m.s.mix.count < MixSlots.MAX_MIX
  }

  /** The walk stands at an entry that the heartbeat unlinked. */
  predicate LosesWay(m: Machine, step: Step)
    requires Shaped(m) && Enabled(m, step)
  {
    step.Go? && m.cmd.Leaving? && !m.s.open[m.cmd.k]
  }

  predicate Bad(m: Machine, step: Step)
    requires Shaped(m) && Enabled(m, step)
  {
    ClosesTwice(m, step) || Relinks(m, step) || Reseats(m, step) || LosesWay(m, step)
  }

  // ---------- what holds in every interleaving ----------

  function Limit(s: F.State, twice: nat): nat {
    (if s.maxUser > 0 then s.maxUser else 0) + twice
  }

  ghost predicate Books(s: F.State, twice: nat) {
    && F.Shaped(s) && Distinct(s.list)
    && |s.list| == s.openUser + twice
    && (forall d :: 0 <= d < |s.kind| ==> (s.open[d] <==> d in s.list))
    && F.Speakers(s.kind, s.list) <= Limit(s, twice)
  }

  /** The speakers among the first n entries, and everybody behind them. */
  function Weight(kind: seq<int>, list: seq<nat>, n: nat): int
    requires n <= |list|
  {
    F.Speakers(kind, list[..n]) + |list| - n
  }

  /** The walk is about to look at k, which may have been unlinked: no more speakers are listed than the
      bound, even if every entry from k on is one, k included. */
  ghost predicate AtEntry(kind: seq<int>, list: seq<nat>, k: nat, bound: int) {
    var i := MixSlots.First(list, k, 0);
    Weight(kind, list, i) + (if i == |list| && k < |kind| && kind[k] == F.DEVTYPE_CHAIR then 1 else 0) <= bound
  }

  /** The same behind k. */
  ghost predicate PastEntry(kind: seq<int>, list: seq<nat>, k: nat, bound: int) {
    var i := MixSlots.First(list, k, 0);
    Weight(kind, list, if i < |list| then i + 1 else i) <= bound
  }

  /** What the walk's own count is still good for, wherever the heartbeat has been. */
  ghost predicate Counts(s: F.State, twice: nat, c: Cmd) {
    match c
    case Starting(_, counted) => |s.list| <= counted + twice
    case Looking(_, k, counted, kick) => AtEntry(s.kind, s.list, k, counted + twice)
    case Leaving(_, k, counted, kick) => PastEntry(s.kind, s.list, k, counted + twice)
    case Adding(d) => F.Chair(s, d) || F.Speakers(s.kind, s.list) < Limit(s, twice)
    case _ => true
  }

  /** No chair is a candidate or a victim. */
  ghost predicate SparesChairs(s: F.State, c: Cmd) {
    match c
    case Looking(_, _, _, kick) => kick >= 0 ==> !F.Chair(s, kick)
    case Leaving(_, _, _, kick) => kick >= 0 ==> !F.Chair(s, kick)
    case Choosing(_, kick) => kick >= 0 ==> !F.Chair(s, kick)
    case Evicting(_, k) => !F.Chair(s, k)
    case _ => true
  }

  ghost predicate Inv(m: Machine) {
    Shaped(m) && Books(m.s, m.twice) && Counts(m.s, m.twice, m.cmd) && SparesChairs(m.s, m.cmd)
  }

  lemma WeightStep(kind: seq<int>, list: seq<nat>, n: nat)
    requires n < |list| && list[n] < |kind|
    ensures Weight(kind, list, n + 1) == Weight(kind, list, n) - if kind[list[n]] == F.DEVTYPE_CHAIR then 1 else 0
  {
    assert list[..n + 1] == list[..n] + [list[n]];
    F.SpeakersAdd(kind, list[..n], list[n]);
  }

  lemma {:induction false} WeightFalls(kind: seq<int>, list: seq<nat>, n: nat)
    requires n <= |list| && forall i :: 0 <= i < |list| ==> list[i] < |kind|
    ensures F.Speakers(kind, list) <= Weight(kind, list, n)
    decreases |list| - n
  {
    if n < |list| {
      WeightStep(kind, list, n);
      WeightFalls(kind, list, n + 1);
    } else {
      assert list[..n] == list;
    }
  }

  /** Without entry p the weight is no greater, and one less up to p. */
  lemma WeightDrop(kind: seq<int>, list: seq<nat>, p: nat, n: nat)
    requires p < |list| && n <= |list| && forall i :: 0 <= i < |list| ==> list[i] < |kind|
    ensures
      var r := list[..p] + list[p + 1..];
      && (n <= p ==> Weight(kind, r, n) == Weight(kind, list, n) - 1)
      && (n > p ==> Weight(kind, r, n - 1) <= Weight(kind, list, n))
  {
    var r := list[..p] + list[p + 1..];
    if n <= p {
      assert r[..n] == list[..n];
    } else {
      var ones := F.Ones(kind, list[..n]);
      assert r[..n - 1] == list[..n][..p] + list[..n][p + 1..];
      assert F.Ones(kind, r[..n - 1]) == ones[..p] + ones[p + 1..];
      F.SumSkip(ones, p);
    }
  }

  lemma FirstIs(list: seq<nat>, i: nat)
    requires Distinct(list) && i < |list|
    ensures MixSlots.First(list, list[i], 0) == i
  {
  }

  /** Where k stands once entry p is gone. */
  lemma FirstDrop(list: seq<nat>, p: nat, k: nat)
    requires Distinct(list) && p < |list|
    ensures
      var i := MixSlots.First(list, k, 0);
      MixSlots.First(list[..p] + list[p + 1..], k, 0) == if i < p then i else if i == p then |list| - 1 else i - 1
  {
    var r, i := list[..p] + list[p + 1..], MixSlots.First(list, k, 0);
    var j := MixSlots.First(r, k, 0);
    if i < p {
      assert r[i] == k;
    } else if p < i < |list| {
      assert r[i - 1] == k;
    }
    if j < |r| {
      assert r[j] == list[if j < p then j else j + 1];
    }
  }

  lemma NoneLeft(list: seq<nat>, k: nat)
    requires k !in list
    ensures F.Without(list, k) == list
  {
  }

  lemma CloseKeepsBooks(m: Machine, k: nat)
    requires Inv(m) && k < |m.s.kind|
    ensures Books(Close(m, k).s, Close(m, k).twice)
    ensures m.s.open[k] ==> F.Speakers(m.s.kind, Close(m, k).s.list)
                            == F.Speakers(m.s.kind, m.s.list) - if F.Chair(m.s, k) then 0 else 1
    ensures !m.s.open[k] ==> Close(m, k).s.list == m.s.list
  {
    var s := m.s;
    if s.open[k] {
      F.SpeakersDrop(s.kind, s.list, k);
      F.WithoutDistinct(s.list, k);
    } else {
      NoneLeft(s.list, k);
    }
    hide F.Speakers, F.Without, MixSlots.Rm, Counts, SparesChairs;
  }

  lemma AtEntryDrop(kind: seq<int>, list: seq<nat>, p: nat, k: nat, bound: int)
    requires Distinct(list) && p < |list| && forall i :: 0 <= i < |list| ==> list[i] < |kind|
    requires AtEntry(kind, list, k, bound)
    ensures AtEntry(kind, list[..p] + list[p + 1..], k, bound)
  {
    var r, i := list[..p] + list[p + 1..], MixSlots.First(list, k, 0);
    FirstDrop(list, p, k);
    WeightDrop(kind, list, p, i);
    if i == p {
      WeightFalls(kind, r, p);
      assert r[..|r|] == r;
    }
    hide F.Speakers;
  }

  lemma PastEntryDrop(kind: seq<int>, list: seq<nat>, p: nat, k: nat, bound: int)
    requires Distinct(list) && p < |list| && forall i :: 0 <= i < |list| ==> list[i] < |kind|
    requires PastEntry(kind, list, k, bound)
    ensures PastEntry(kind, list[..p] + list[p + 1..], k, bound)
  {
    var r, i := list[..p] + list[p + 1..], MixSlots.First(list, k, 0);
    FirstDrop(list, p, k);
    WeightDrop(kind, list, p, if i < |list| then i + 1 else i);
    if i == p {
      WeightFalls(kind, r, p);
      assert r[..|r|] == r;
    }
    hide F.Speakers;
  }

  /** A microphone closed by the heartbeat leaves the walk's count good. */
  lemma CloseKeepsCounts(m: Machine, k: nat)
    requires Inv(m) && k < |m.s.kind|
    ensures Counts(Close(m, k).s, Close(m, k).twice, m.cmd)
  {
    var s, c := m.s, m.cmd;
    CloseKeepsBooks(m, k);
    if s.open[k] {
      var p := MixSlots.First(s.list, k, 0);
      assert Close(m, k).s.list == s.list[..p] + s.list[p + 1..];
      hide AtEntry, PastEntry, F.Speakers, F.Without, MixSlots.Rm, MixSlots.First;
      if c.Looking? {
        AtEntryDrop(s.kind, s.list, p, c.k, c.counted + m.twice);
      } else if c.Leaving? {
        PastEntryDrop(s.kind, s.list, p, c.k, c.counted + m.twice);
      }
    } else {
      hide F.Speakers, F.Without, MixSlots.Rm;
    }
  }

  lemma StartingKeepsInv(m: Machine)
    requires Inv(m) && m.cmd.Starting?
    ensures Inv(Went(m))
  {
    var list := m.s.list;
    if list != [] {
      FirstIs(list, 0);
      assert list[..0] == [] && F.Ones(m.s.kind, []) == [];
    }
    hide Books;
  }

  lemma LookingKeepsInv(m: Machine)
    requires Inv(m) && m.cmd.Looking?
    ensures Inv(Went(m))
  {
    var s, c := m.s, m.cmd;
    var i := MixSlots.First(s.list, c.k, 0);
    if i < |s.list| {
      WeightStep(s.kind, s.list, i);
      WeightFalls(s.kind, s.list, i + 1);
    } else {
      assert s.list[..i] == s.list;
    }
    hide F.Speakers, Books, Distinct;
  }

  lemma LeavingKeepsInv(m: Machine)
    requires Inv(m) && m.cmd.Leaving?
    ensures Inv(Went(m))
  {
    var s, c := m.s, m.cmd;
    var i := MixSlots.First(s.list, c.k, 0);
    if i + 1 < |s.list| {
      FirstIs(s.list, i + 1);
    }
    hide Weight, Books;
  }

  lemma EvictingKeepsInv(m: Machine)
    requires Inv(m) && m.cmd.Evicting?
    ensures Inv(Went(m))
  {
    CloseKeepsBooks(m, m.cmd.k);
    hide F.Speakers, F.Without, MixSlots.Rm, Distinct;
  }

  lemma AddingKeepsInv(m: Machine)
    requires Inv(m) && m.cmd.Adding? && !m.s.open[m.cmd.d]
    ensures Inv(Went(m))
  {
    F.SpeakersAdd(m.s.kind, m.s.list, m.cmd.d);
    hide F.Speakers, MixSlots.Add;
  }

  lemma GoKeepsInv(m: Machine)
    requires Inv(m) && Enabled(m, Go) && !Relinks(m, Go)
    ensures Inv(Went(m))
  {
    match m.cmd {
      case Starting(_, _) => StartingKeepsInv(m);
      case Looking(_, _, _, _) => LookingKeepsInv(m);
      case Leaving(_, _, _, _) => LeavingKeepsInv(m);
      case Evicting(_, _) => EvictingKeepsInv(m);
      case Adding(_) => AddingKeepsInv(m);
      case Dropping(d) => CloseKeepsBooks(m, d); hide Books, Close;
      case _ =>
        F.SpeakersCount(m.s);
        hide F.Speakers, MixSlots.Add, Distinct;
    }
  }

  lemma BeatKeepsInv(m: Machine)
    requires Inv(m) && Enabled(m, Beat)
    ensures Inv(Apply(m, Beat))
  {
    if m.beat.Closing? {
      CloseKeepsBooks(m, m.beat.k);
      CloseKeepsCounts(m, m.beat.k);
    }
    hide Books, Counts;
  }

  /** Every step but one that links a listed microphone keeps the invariant. */
  lemma StepKeepsInv(m: Machine, step: Step)
    requires Inv(m) && Enabled(m, step) && !Relinks(m, step)
    ensures Inv(Apply(m, step))
  {
    match step {
      case Go => GoKeepsInv(m); hide Inv;
      case Beat => BeatKeepsInv(m); hide Inv;
      case _ => hide F.Speakers, Distinct, AtEntry, PastEntry, MixSlots.Watch;
    }
  }

  // ---------- when the bookkeeping holds ----------

  /** The bookkeeping of Floor.dfy, only open microphones in the slots, and the walk on the list. */
  ghost predicate Kept(m: Machine) {
    F.Inv(m.s) && F.SlotsOpen(m.s) && !m.cmd.Astray?
  }

  lemma KeptIsBooks(m: Machine)
    requires Inv(m)
    ensures F.Inv(m.s) <==> m.twice == 0
  {
    F.SpeakersCount(m.s);
    hide F.Speakers, Distinct;
  }

  lemma RelinksBreaks(m: Machine)
    requires Inv(m) && Enabled(m, Go) && Relinks(m, Go)
    ensures !F.Inv(Went(m).s)
  {
    F.TwiceIsNotDistinct(m.s.list, m.cmd.d);
    hide MixSlots.Add;
  }

  lemma CloseSlots(m: Machine, k: nat)
    requires Shaped(m) && F.SlotsOpen(m.s) && k < |m.s.kind|
    ensures F.SlotsOpen(Close(m, k).s)
  {
    F.ClosingSlots(m.s, k);
    hide F.SlotsOpen, F.Closing;
  }

  lemma RestoringSlots(m: Machine)
    requires Shaped(m) && F.SlotsOpen(m.s) && m.cmd.Restoring?
    ensures F.SlotsOpen(Went(m).s) <==> !Reseats(m, Go)
  {
    var s, d := m.s, m.cmd.d;
    MixSlots.AddKeepsSlots(s.mix, d, s.net);
    MixSlots.AddAlone(s.mix, d, s.net);
    hide MixSlots.SlotsAgree, MixSlots.Add, MixSlots.Shaped;
  }

  lemma GoSlots(m: Machine)
    requires Shaped(m) && Enabled(m, Go) && F.SlotsOpen(m.s)
    ensures F.SlotsOpen(Went(m).s) <==> !Reseats(m, Go)
  {
    hide F.SlotsOpen, F.Opening, F.Closing, MixSlots.Add, F.Shaped, F.Chair, Look, Follow;
    match m.cmd {
      case Restoring(_) => RestoringSlots(m);
      case Evicting(_, k) => CloseSlots(m, k);
      case Dropping(d) => CloseSlots(m, d);
      case Adding(d) => F.OpeningSlots(m.s, d);
      case _ =>
    }
  }

  lemma SlotsStep(m: Machine, step: Step)
    requires Inv(m) && Enabled(m, step) && F.SlotsOpen(m.s)
    ensures F.SlotsOpen(Apply(m, step).s) <==> !Reseats(m, step)
  {
    var s := m.s;
    match step {
      case Go => GoSlots(m); hide F.SlotsOpen, Inv, Went;
      case Beat =>
        if m.beat.Closing? { CloseSlots(m, m.beat.k); }
        hide F.SlotsOpen, Inv;
      case Watch(i, empty) =>
        MixSlots.WatchSlots(s.mix, empty, i, s.net);
        hide MixSlots.SlotsAgree, MixSlots.Watch, Inv;
      case Addresses(res, avail) =>
        MixSlots.SameSlotsAgree(s.mix, s.mix.(res := res, avail := avail));
        hide MixSlots.SlotsAgree, Inv;
      case _ => hide MixSlots.SlotsAgree, Inv;
    }
  }

  lemma TwiceStep(m: Machine, step: Step)
    requires Inv(m) && Enabled(m, step)
    ensures Apply(m, step).twice == m.twice + if ClosesTwice(m, step) then 1 else 0
    ensures !m.cmd.Astray? ==> (Apply(m, step).cmd.Astray? <==> LosesWay(m, step))
  {
    hide F.Opening, F.Closing, MixSlots.Add, MixSlots.Watch, Counts, SparesChairs;
  }

  /** One step goes wrong exactly when it is one of the four. */
  lemma StepKept(m: Machine, step: Step)
    requires Inv(m) && Kept(m) && Enabled(m, step)
    ensures Kept(Apply(m, step)) <==> !Bad(m, step)
    ensures !Bad(m, step) ==> Inv(Apply(m, step))
  {
    KeptIsBooks(m);
    SlotsStep(m, step);
    TwiceStep(m, step);
    hide F.Inv, F.SlotsOpen, ClosesTwice, Reseats, LosesWay, Apply;
    if Relinks(m, step) {
      RelinksBreaks(m);
    } else {
      StepKeepsInv(m, step);
      KeptIsBooks(Apply(m, step));
    }
  }

  ghost predicate KeptThroughout(m: Machine, steps: seq<Step>)
    requires Shaped(m) && Runs(m, steps)
    decreases |steps|
  {
    Kept(m) && (steps != [] ==> KeptThroughout(Apply(m, steps[0]), steps[1..]))
  }

  predicate NoneBad(m: Machine, steps: seq<Step>)
    requires Shaped(m) && Runs(m, steps)
    decreases |steps|
  {
    steps != [] ==> !Bad(m, steps[0]) && NoneBad(Apply(m, steps[0]), steps[1..])
  }

  predicate NoneRelinks(m: Machine, steps: seq<Step>)
    requires Shaped(m) && Runs(m, steps)
    decreases |steps|
  {
    steps != [] ==> !Relinks(m, steps[0]) && NoneRelinks(Apply(m, steps[0]), steps[1..])
  }

  lemma {:induction false} KeptIffFrom(m: Machine, steps: seq<Step>)
    requires Inv(m) && Kept(m) && Runs(m, steps)
    ensures KeptThroughout(m, steps) <==> NoneBad(m, steps)
    decreases |steps|
  {
    if steps != [] {
      assert Shaped(m);
      hide Inv, Kept, Apply, Enabled, Bad;
      StepKept(m, steps[0]);
      if !Bad(m, steps[0]) {
        KeptIffFrom(Apply(m, steps[0]), steps[1..]);
      }
    }
  }

  lemma StartInv(kind: seq<int>, mode: int, maxUser: int, net: bool)
    ensures Inv(Start(kind, mode, maxUser, net)) && Kept(Start(kind, mode, maxUser, net))
  {
    F.InitKeeps(kind, mode, maxUser, net);
    hide F.SlotsOpen;
  }

  /** In every interleaving the bookkeeping holds at every moment exactly when no step is bad: no del_open
      on a microphone already closed, no add_open on an open one, no slot given back to a closed one, no
      walk from an entry that was unlinked. */
  lemma KeptIffNoneBad(kind: seq<int>, mode: int, maxUser: int, net: bool, steps: seq<Step>)
    requires Runs(Start(kind, mode, maxUser, net), steps)
    ensures KeptThroughout(Start(kind, mode, maxUser, net), steps) <==> NoneBad(Start(kind, mode, maxUser, net), steps)
  {
    StartInv(kind, mode, maxUser, net);
    KeptIffFrom(Start(kind, mode, maxUser, net), steps);
  }

  lemma {:induction false} RunKeepsInv(m: Machine, steps: seq<Step>)
    requires Inv(m) && Runs(m, steps) && NoneRelinks(m, steps)
    ensures Inv(After(m, steps))
    decreases |steps|
  {
    if steps != [] {
      assert Shaped(m);
      hide Inv, Apply, Enabled, Relinks;
      StepKeepsInv(m, steps[0]);
      RunKeepsInv(Apply(m, steps[0]), steps[1..]);
    }
  }

  /** Whatever the threads do, short of linking a microphone twice: a device is listed exactly when its
      flag says open, once; the counter is behind the list by the closings that came too late, and each of
      them, nothing else, lets one speaker more in than maxuser; and the victim about to be closed is no
      chair. */
  lemma EveryInterleaving(kind: seq<int>, mode: int, maxUser: int, net: bool, steps: seq<Step>)
    requires Runs(Start(kind, mode, maxUser, net), steps) && NoneRelinks(Start(kind, mode, maxUser, net), steps)
    ensures
      var m := After(Start(kind, mode, maxUser, net), steps);
      && Distinct(m.s.list) && |m.s.list| == m.s.openUser + m.twice
      && (forall d :: 0 <= d < |kind| ==> (m.s.open[d] <==> d in m.s.list))
      && F.Speakers(kind, m.s.list) <= (if maxUser > 0 then maxUser else 0) + m.twice
      && (m.cmd.Evicting? ==> m.cmd.k < |kind| && kind[m.cmd.k] != F.DEVTYPE_CHAIR)
  {
    StartInv(kind, mode, maxUser, net);
    RunKeepsInv(Start(kind, mode, maxUser, net), steps);
    hide F.Speakers, After, Runs, NoneRelinks;
  }

  lemma {:induction false} NoneBadKeepsInv(m: Machine, steps: seq<Step>)
    requires Inv(m) && Kept(m) && Runs(m, steps) && NoneBad(m, steps)
    ensures Inv(After(m, steps)) && Kept(After(m, steps))
    decreases |steps|
  {
    if steps != [] {
      assert Shaped(m);
      hide Inv, Kept, Apply, Enabled, Bad;
      StepKept(m, steps[0]);
      NoneBadKeepsInv(Apply(m, steps[0]), steps[1..]);
    }
  }

  /** After any run without a bad step: the counter is the length of the list, listed exactly when open,
      once, no more than maxuser speakers, and only open microphones hold slots. */
  lemma FloorBookkeeping(kind: seq<int>, mode: int, maxUser: int, net: bool, steps: seq<Step>)
    requires Runs(Start(kind, mode, maxUser, net), steps) && NoneBad(Start(kind, mode, maxUser, net), steps)
    ensures
      var s := After(Start(kind, mode, maxUser, net), steps).s;
      && s.openUser == |s.list| && Distinct(s.list)
      && (forall d :: 0 <= d < |kind| ==> (s.open[d] <==> d in s.list))
      && F.Speakers(kind, s.list) <= (if maxUser > 0 then maxUser else 0)
      && (forall d :: 0 <= d < |kind| && s.mix.mixbit[d] != 0 ==> d in s.list)
  {
    StartInv(kind, mode, maxUser, net);
    NoneBadKeepsInv(Start(kind, mode, maxUser, net), steps);
    hide F.Speakers, After, Runs, NoneBad, MixSlots.SlotsAgree;
  }

  /** A request on its way to open a microphone finds it closed. */
  predicate OpensClosed(s: F.State, c: Cmd) {
    match c
    case Ready => true
    case Restoring(_) => true
    case Dropping(_) => true
    case Astray => true
    case _ => c.d < |s.open| && !s.open[c.d]
  }

  lemma OpensClosedStep(m: Machine, step: Step)
    requires Shaped(m) && Enabled(m, step) && OpensClosed(m.s, m.cmd)
    requires step.Begin? ==> step.want == 0 || step.want == 1
    ensures !Relinks(m, step) && OpensClosed(Apply(m, step).s, Apply(m, step).cmd)
  {
    hide F.Without, MixSlots.Add, MixSlots.Rm, MixSlots.Watch, F.Chair;
  }

  lemma {:induction false} ZeroOrOneFrom(m: Machine, steps: seq<Step>)
    requires Shaped(m) && Runs(m, steps) && OpensClosed(m.s, m.cmd)
    requires forall k :: 0 <= k < |steps| && steps[k].Begin? ==> steps[k].want == 0 || steps[k].want == 1
    ensures NoneRelinks(m, steps)
    decreases |steps|
  {
    if steps != [] {
      hide Apply, Enabled, OpensClosed, Relinks, Shaped;
      OpensClosedStep(m, steps[0]);
      ZeroOrOneFrom(Apply(m, steps[0]), steps[1..]);
    }
  }

  /** Clients that send 0 and 1 never link a microphone twice, whatever the heartbeat does. */
  lemma ZeroOrOne(kind: seq<int>, mode: int, maxUser: int, net: bool, steps: seq<Step>)
    requires Runs(Start(kind, mode, maxUser, net), steps)
    requires forall k :: 0 <= k < |steps| && steps[k].Begin? ==> steps[k].want == 0 || steps[k].want == 1
    ensures NoneRelinks(Start(kind, mode, maxUser, net), steps)
  {
    ZeroOrOneFrom(Start(kind, mode, maxUser, net), steps);
  }

  // ---------- everybody is heard ----------

  lemma GoHeard(m: Machine)
    requires Inv(m) && Kept(m) && Enabled(m, Go) && !Bad(m, Go) && F.AllHeard(m.s)
    ensures F.AllHeard(Went(m).s) <==> Went(m).s.openUser <= MixSlots.MAX_MIX
  {
    var s := m.s;
    F.HeardFit(s);
    match m.cmd {
      case Restoring(d) =>
        if s.open[d] {
          F.ReopenSlots(s, d);
        } else {
          MixSlots.CountSaysFull(s.mix);
        }
      case Evicting(_, k) => F.ClosingHeard(s, k);
      case Dropping(d) => F.ClosingHeard(s, d);
      case Adding(d) => F.OpeningHeard(s, d);
      case _ =>
    }
    hide F.AllHeard, F.SlotsOpen, F.Inv, Inv, F.Opening;
  }

  /** Everybody stays heard while no slot is taken away from a hung device and no more than eight
      microphones are open. */
  lemma StepHeard(m: Machine, step: Step)
    requires Inv(m) && Kept(m) && Enabled(m, step) && !Bad(m, step) && F.AllHeard(m.s)
    requires !step.Watch? && Apply(m, step).s.openUser <= MixSlots.MAX_MIX
    ensures F.AllHeard(Apply(m, step).s)
  {
    match step {
      case Go => GoHeard(m); hide F.AllHeard, Bad, Inv, Kept;
      case Beat =>
        if m.beat.Closing? { F.ClosingHeard(m.s, m.beat.k); }
        hide F.AllHeard, F.SlotsOpen, F.Inv, Inv;
      case _ => hide F.SlotsOpen, F.Inv, Inv;
    }
  }

  lemma NoChairsNoCrowd(m: Machine)
    requires Inv(m) && m.twice == 0 && m.s.maxUser <= MixSlots.MAX_MIX && F.DEVTYPE_CHAIR !in m.s.kind
    ensures m.s.openUser <= MixSlots.MAX_MIX
  {
    var ones := F.Ones(m.s.kind, m.s.list);
    forall i | 0 <= i < |ones| ensures ones[i] == 1 {
      assert m.s.kind[m.s.list[i]] in m.s.kind;
    }
    SumBounds(ones, 1, 1);
  }

  lemma {:induction false} HeardFrom(m: Machine, steps: seq<Step>)
    requires Inv(m) && Kept(m) && F.AllHeard(m.s) && Runs(m, steps) && NoneBad(m, steps)
    requires forall k :: 0 <= k < |steps| ==> !steps[k].Watch?
    requires m.s.maxUser <= MixSlots.MAX_MIX && F.DEVTYPE_CHAIR !in m.s.kind
    ensures F.AllHeard(After(m, steps).s)
    decreases |steps|
  {
    if steps != [] {
      assert Shaped(m);
      hide Inv, Apply, Enabled, Bad, F.AllHeard, F.SlotsOpen, F.Inv;
      var t := Apply(m, steps[0]);
      StepKept(m, steps[0]);
      KeptIsBooks(t);
      NoChairsNoCrowd(t);
      StepHeard(m, steps[0]);
      HeardFrom(t, steps[1..]);
    }
  }

  /** With no chairs and a limit within the eight slots, every open microphone has a slot of its own at
      every moment of every interleaving without bad steps and hung devices. */
  lemma EveryoneHeard(kind: seq<int>, mode: int, maxUser: int, net: bool, steps: seq<Step>)
    requires Runs(Start(kind, mode, maxUser, net), steps) && NoneBad(Start(kind, mode, maxUser, net), steps)
    requires forall k :: 0 <= k < |steps| ==> !steps[k].Watch?
    requires maxUser <= MixSlots.MAX_MIX && F.DEVTYPE_CHAIR !in kind
    ensures
      var s := After(Start(kind, mode, maxUser, net), steps).s;
      s.mix.count == s.openUser && forall d :: 0 <= d < |kind| && s.open[d] ==> s.mix.mixbit[d] != 0
  {
    StartInv(kind, mode, maxUser, net);
    F.InitKeeps(kind, mode, maxUser, net);
    HeardFrom(Start(kind, mode, maxUser, net), steps);
    hide After, Runs, NoneBad;
  }

  // ---------- a thread alone ----------

  lemma {:induction false} RunsOn(m: Machine, a: seq<Step>, b: seq<Step>)
    requires Shaped(m) && Runs(m, a) && Runs(After(m, a), b)
    ensures Runs(m, a + b) && After(m, a + b) == After(After(m, a), b)
    decreases |a|
  {
    hide Apply, Enabled;
    if a == [] {
      assert a + b == b;
    } else {
      assert (a + b)[1..] == a[1..] + b;
      RunsOn(Apply(m, a[0]), a[1..], b);
    }
  }

  lemma OneStep(m: Machine, step: Step)
    requires Shaped(m) && Enabled(m, step)
    ensures Runs(m, [step]) && After(m, [step]) == Apply(m, step)
  {
    assert [step][1..] == [];
    assert Runs(Apply(m, step), []);
    assert After(Apply(m, step), []) == Apply(m, step);
    hide Apply, Shaped;
  }

  /** A run goes on with one more step. */
  lemma OneMore(m: Machine, steps: seq<Step>, step: Step)
    requires Shaped(m) && Runs(m, steps) && Enabled(After(m, steps), step)
    ensures Runs(m, steps + [step]) && After(m, steps + [step]) == Apply(After(m, steps), step)
  {
    OneStep(After(m, steps), step);
    RunsOn(m, steps, [step]);
  }

  /** Where the walk leaves the request. */
  function Walked(d: nat, c: F.Choice): Cmd {
    match c
    case Put => Adding(d)
    case Evict(k) => Choosing(d, k)
    case Reject => Choosing(d, NOBODY)
  }

  /** The step of the walk's look and, unless it ends there, the step to the next entry. */
  lemma WalkStep(m: Machine, i: nat)
    requires Inv(m) && m.cmd.Looking? && i < |m.s.list| && m.cmd.k == m.s.list[i]
    ensures
      var s, c, t := m.s, m.cmd, Went(m);
      var found := F.Scan(s, i, c.counted, c.kick);
      if !t.cmd.Leaving? then t == m.(cmd := Walked(c.d, found))
      else
        var u := Went(t);
        u == m.(cmd := u.cmd)
        && if i + 1 == |s.list| then u.cmd == Walked(c.d, found)
           else u.cmd.Looking? && u.cmd.k == s.list[i + 1] && u.cmd.d == c.d
                && F.Scan(s, i + 1, u.cmd.counted, u.cmd.kick) == found
  {
    FirstIs(m.s.list, i);
    hide Books, Counts, SparesChairs;
  }

  /** With nobody in between, the walk finds what Scan says. */
  lemma {:induction false} WalkAlone(m: Machine, i: nat) returns (steps: seq<Step>)
    requires Inv(m) && m.cmd.Looking? && i < |m.s.list| && m.cmd.k == m.s.list[i]
    ensures Runs(m, steps)
    ensures After(m, steps) == m.(cmd := Walked(m.cmd.d, F.Scan(m.s, i, m.cmd.counted, m.cmd.kick)))
    decreases |m.s.list| - i
  {
    WalkStep(m, i);
    OneStep(m, Go);
    var t := Went(m);
    steps := [Go];
    GoKeepsInv(m);
    hide Inv, Runs, After, Went, F.Scan, Walked;
    if t.cmd.Leaving? {
      OneMore(m, steps, Go);
      GoKeepsInv(t);
      steps := steps + [Go];
      if i + 1 < |m.s.list| {
        var rest := WalkAlone(Went(t), i + 1);
        RunsOn(m, steps, rest);
        steps := steps + rest;
      }
    }
  }

  /** Where a request that wants to open stands once it has decided. */
  function Decided(d: nat, c: F.Choice): Cmd {
    match c
    case Put => Adding(d)
    case Evict(k) => Evicting(d, k)
    case Reject => Ready
  }

  lemma AdmitAlone(m: Machine) returns (steps: seq<Step>)
    requires Inv(m) && m.cmd.AtChair?
    ensures Runs(m, steps) && After(m, steps) == m.(cmd := Decided(m.cmd.d, F.Admit(m.s, m.cmd.d)))
  {
    var s, d := m.s, m.cmd.d;
    hide Inv, Runs, After;
    OneStep(m, Go);
    GoKeepsInv(m);
    steps := [Go];
    if Went(m).cmd.AtRoom? {
      OneMore(m, steps, Go);
      GoKeepsInv(Went(m));
      steps := steps + [Go];
      var t := m.(cmd := AtWalk(d));
      if Went(Went(m)) == t {
        var rest := SearchAlone(t);
        RunsOn(m, steps, rest);
        steps := steps + rest;
      }
    }
  }

  /** The search for a place, from the copy of openuser to the decision. */
  lemma SearchAlone(m: Machine) returns (steps: seq<Step>)
    requires Inv(m) && m.cmd.AtWalk?
    ensures
      var d := m.cmd.d;
      var c := F.Scan(m.s, 0, m.s.openUser, NOBODY);
      && Runs(m, steps)
      && After(m, steps) ==
           m.(cmd := Decided(d, if c.Evict? && m.s.active[c.k] && m.s.mode != F.DISCMODE_FIFO then F.Reject else c))
  {
    var s, d := m.s, m.cmd.d;
    hide Inv, Runs, After;
    OneStep(m, Go);
    GoKeepsInv(m);
    steps := [Go];
    var t := Went(m);
    OneMore(m, steps, Go);
    GoKeepsInv(t);
    steps := steps + [Go];
    var u := Went(t);
    if s.list != [] {
      var rest := WalkAlone(u, 0);
      RunsOn(m, steps, rest);
      steps := steps + rest;
    }
    var v := After(m, steps);
    if v.cmd.Choosing? {
      OneMore(m, steps, Go);
      steps := steps + [Go];
    }
  }

  /** A request with the heartbeat resting beside it is the request of Floor.dfy. */
  lemma RequestAlone(m: Machine, d: nat, want: int) returns (steps: seq<Step>)
    requires Inv(m) && m.cmd == Ready && d < |m.s.kind|
    ensures Runs(m, steps) && After(m, steps) == m.(s := F.Answer(m.s, d, want).0)
  {
    hide Runs, After, F.Opening, F.Closing, F.Admit;
    OneStep(m, Begin(d, want));
    steps := [Begin(d, want)];
    var t := Apply(m, Begin(d, want));
    if t.cmd.AtChair? {
      StepKeepsInv(m, Begin(d, want));
      F.ChairNeverEvicted(m.s, d);
      var rest := AdmitAlone(t);
      RunsOn(m, steps, rest);
      steps := steps + rest;
      if After(m, steps).cmd.Evicting? {
        OneMore(m, steps, Go);
        steps := steps + [Go];
      }
      if After(m, steps).cmd.Adding? {
        OneMore(m, steps, Go);
        steps := steps + [Go];
      }
    } else if t.cmd != Ready {
      OneMore(m, steps, Go);
      steps := steps + [Go];
    }
  }

  lemma HeartbeatBeside(m: Machine, k: nat) returns (steps: seq<Step>)
    requires Shaped(m) && m.beat == Resting && k < |m.s.kind| && m.s.active[k] && m.s.open[k]
    ensures Runs(m, steps) && After(m, steps) == m.(s := F.Closing(m.s.(active := m.s.active[k := false]), k))
  {
    hide Runs, After, F.Closing;
    OneStep(m, Mark(k));
    OneMore(m, [Mark(k)], Beat);
    OneMore(m, [Mark(k)] + [Beat], Beat);
    steps := [Mark(k)] + [Beat] + [Beat];
  }

  /** And the heartbeat with no request beside it is the death of Floor.dfy. */
  lemma HeartbeatAlone(m: Machine, k: nat) returns (steps: seq<Step>)
    requires Inv(m) && m.beat == Resting && k < |m.s.kind| && m.s.active[k]
    ensures Runs(m, steps) && After(m, steps) == m.(s := F.Die(m.s, k))
  {
    assert Shaped(m);
    hide Runs, After, F.Closing, Inv;
    if m.s.open[k] {
      steps := HeartbeatBeside(m, k);
    } else {
      OneStep(m, Mark(k));
      OneMore(m, [Mark(k)], Beat);
      steps := [Mark(k)] + [Beat];
    }
  }

  // ---------- runs that go wrong ----------

  /** A dead microphone is closed by the heartbeat and by a request at once: with k first in the list and
      no room, the request of e takes k for the victim after the heartbeat saw it open. Afterwards the
      counter is one less than the list. */
  lemma KickedWhileDying(m: Machine, k: nat, e: nat) returns (steps: seq<Step>)
    requires Inv(m) && Kept(m) && m.cmd == Ready && m.beat == Resting && k < |m.s.kind| && e < |m.s.kind|
    requires m.s.list != [] && m.s.list[0] == k && m.s.active[k] && !F.Chair(m.s, k)
    requires !m.s.open[e] && !F.Chair(m.s, e) && m.s.openUser == m.s.maxUser
    ensures Runs(m, steps)
    ensures
      var t := After(m, steps);
      t.s.openUser == |t.s.list| - 1 && !Kept(t) && t.s.list == F.Without(m.s.list, k) + [e]
  {
    var s := m.s.(active := m.s.active[k := false]);
    var a := m.(s := s, beat := Closing(k));
    assert Shaped(m) && m.s.open[k];
    hide Runs, After, F.Opening, F.Closing, F.SlotsOpen;
    OneStep(m, Mark(k));
    OneMore(m, [Mark(k)], Beat);
    StepKeepsInv(m, Mark(k));
    StepKeepsInv(m.(s := s, beat := Testing(k)), Beat);
    steps := [Mark(k)] + [Beat];
    OneMore(m, steps, Begin(e, 1));
    StepKeepsInv(a, Begin(e, 1));
    steps := steps + [Begin(e, 1)];
    var asked := a.(cmd := AtChair(e));
    var rest := AdmitAlone(asked);
    RunsOn(m, steps, rest);
    steps := steps + rest;
    assert F.Admit(s, e) == F.Evict(k);
    KickedAfter(m, steps, k, e, s);
    steps := steps + [Go] + [Go] + [Beat];
  }

  lemma KickedAfter(m: Machine, steps: seq<Step>, k: nat, e: nat, s: F.State)
    requires Shaped(m) && Runs(m, steps) && After(m, steps) == m.(s := s, cmd := Evicting(e, k), beat := Closing(k))
    requires F.Inv(s) && k < |s.kind| && e < |s.kind| && s.open[k] && k != e && s.kind == m.s.kind
    ensures Runs(m, steps + [Go] + [Go] + [Beat])
    ensures
      var t := After(m, steps + [Go] + [Go] + [Beat]);
      t.s.openUser == |t.s.list| - 1 && !Kept(t) && t.s.list == F.Without(s.list, k) + [e]
  {
    hide Runs, After, F.SlotsOpen, F.Speakers, MixSlots.Add, MixSlots.Rm;
    OneMore(m, steps, Go);
    OneMore(m, steps + [Go], Go);
    OneMore(m, steps + [Go] + [Go], Beat);
    F.SpeakersDrop(s.kind, s.list, k);
    F.WithoutDistinct(s.list, k);
    NoneLeft(F.Without(s.list, k) + [e], k);
  }

  /** Such a run from the start: two speakers, room for one. */
  lemma KickedTwice(mode: int, net: bool) returns (steps: seq<Step>)
    ensures Runs(Start([1, 1], mode, 1, net), steps)
    ensures var t := After(Start([1, 1], mode, 1, net), steps); t.s.list == [1] && t.s.openUser == 0
  {
    var m := Start([1, 1], mode, 1, net);
    StartInv([1, 1], mode, 1, net);
    OneStep(m, Wake(0));
    StepKept(m, Wake(0));
    var a := Apply(m, Wake(0));
    F.OpeningSlots(a.s, 0);
    F.PutThrough(a.s, 0);
    hide Runs, After, F.SlotsOpen;
    var open := RequestAlone(a, 0, 1);
    RunsOn(m, [Wake(0)], open);
    steps := KickedWhileDying(a.(s := F.Opening(a.s, 0)), 0, 1);
    RunsOn(m, [Wake(0)] + open, steps);
    steps := [Wake(0)] + open + steps;
  }

  /** The walk stands at k when the heartbeat unlinks it: the next link it follows is NULL. */
  lemma WalkGoesAstray(m: Machine, k: nat) returns (steps: seq<Step>)
    requires Inv(m) && m.cmd.Looking? && m.cmd.k == k && k in m.s.list && m.beat == Resting
    requires m.s.active[k] && !F.Chair(m.s, k)
    ensures Runs(m, steps) && After(m, steps).cmd == Astray
  {
    assert Shaped(m) && m.s.open[k];
    F.WithoutDistinct(m.s.list, k);
    hide Runs, After, F.Without, MixSlots.Rm, Books, Counts;
    OneStep(m, Go);
    steps := HeartbeatBeside(Went(m), k);
    RunsOn(m, [Go], steps);
    steps := [Go] + steps;
    OneMore(m, steps, Go);
    steps := steps + [Go];
  }

  /** An open microphone asks for its slot again while the heartbeat closes it: it is closed and keeps a
      slot. */
  lemma ClosedKeepsSlot(m: Machine, d: nat) returns (steps: seq<Step>)
    requires Inv(m) && Kept(m) && m.cmd == Ready && m.beat == Resting && d < |m.s.kind|
    requires m.s.open[d] && m.s.active[d] && m.s.mix.mixbit[d] != 0
    ensures Runs(m, steps)
    ensures var t := After(m, steps); !t.s.open[d] && t.s.mix.mixbit[d] != 0 && t.cmd == Ready && t.beat == Resting
  {
    var mix := MixSlots.Rm(m.s.mix, d, m.s.net);
    MixSlots.RmKeepsSlots(m.s.mix, d, m.s.net);
    MixSlots.RmAlone(m.s.mix, d, m.s.net);
    MixSlots.CountSaysFull(m.s.mix);
    MixSlots.AddAlone(mix, d, m.s.net);
    hide Runs, After, F.Without, MixSlots.Rm, MixSlots.Add, MixSlots.SlotsAgree, Books, Counts, F.Inv;
    OneStep(m, Begin(d, 1));
    var asked := m.(cmd := Restoring(d));
    steps := HeartbeatBeside(asked, d);
    RunsOn(m, [Begin(d, 1)], steps);
    steps := [Begin(d, 1)] + steps;
    OneMore(m, steps, Go);
    steps := steps + [Go];
  }

  // ---------- nine microphones ----------

  function Nine(): seq<int> {
    [F.DEVTYPE_CHAIR, 1, 1, 1, 1, 1, 1, 1, 1]
  }

  /** Device 0 has opened, then device 1, and so on, nothing else. */
  ghost predicate InTurn(m: Machine, n: nat) {
    && Inv(m) && Kept(m) && F.AllHeard(m.s) && m.cmd == Ready
    && m.s.kind == Nine() && m.s.maxUser == 8 && |m.s.list| == n == m.s.openUser && (n > 0 ==> m.s.list[0] == 0)
    && forall d :: n <= d < 9 ==> !m.s.open[d]
  }

  lemma OneTurn(m: Machine, n: nat) returns (steps: seq<Step>)
    requires n < 8 && InTurn(m, n)
    ensures Runs(m, steps) && InTurn(After(m, steps), n + 1)
  {
    steps := RequestAlone(m, n, 1);
    F.PutThrough(m.s, n);
    F.AnswerKeepsInv(m.s, n, 1);
    F.OpeningSlots(m.s, n);
    F.OpeningHeard(m.s, n);
    var t := After(m, steps);
    assert t == m.(s := F.Opening(m.s, n));
    hide Runs, After, F.Answer, F.AllHeard, F.SlotsOpen, MixSlots.Add;
    KeptIsBooks(m);
    InvOf(t);
  }

  lemma InvOf(m: Machine)
    requires Shaped(m) && F.Inv(m.s) && m.cmd == Ready && m.twice == 0
    ensures Inv(m)
  {
    F.SpeakersCount(m.s);
    hide F.Speakers;
  }

  lemma {:induction false} Turns(mode: int, net: bool, n: nat) returns (steps: seq<Step>)
    requires n <= 8
    ensures Runs(Start(Nine(), mode, 8, net), steps) && InTurn(After(Start(Nine(), mode, 8, net), steps), n)
  {
    var m := Start(Nine(), mode, 8, net);
    if n == 0 {
      StartInv(Nine(), mode, 8, net);
      F.InitKeeps(Nine(), mode, 8, net);
      steps := [];
    } else {
      hide InTurn, Runs, After;
      steps := Turns(mode, net, n - 1);
      var last := OneTurn(After(m, steps), n - 1);
      RunsOn(m, steps, last);
      steps := steps + last;
    }
  }

  /** A chair among them, and a ninth microphone is let in although the eight slots are gone: nine are
      open and the last one is not heard. */
  lemma NinthIsNotHeard(mode: int, net: bool) returns (steps: seq<Step>)
    ensures Runs(Start(Nine(), mode, 8, net), steps)
    ensures
      var s := After(Start(Nine(), mode, 8, net), steps).s;
      s.openUser == 9 && s.open[8] && s.mix.mixbit[8] == 0
  {
    var m := Start(Nine(), mode, 8, net);
    steps := Turns(mode, net, 8);
    var t := After(m, steps);
    var last := RequestAlone(t, 8, 1);
    F.PastTheChair(t.s, 8);
    hide Runs, After;
    RunsOn(m, steps, last);
    steps := steps + last;
  }
}
