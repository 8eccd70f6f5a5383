/** serv/cast.c: the 16 packets last cast by a tag, kept for repeat requests. */
module RepeatRing {
  import opened Cfifo
  import opened Wrappers

  const REP_CAST_SIZE := 16
  const WORD := 0x1_0000_0000  // sequence numbers are 32 bits

  /** A packet in the ring: its buffer, the number it was cast with, its rep_count. */
  datatype Entry = Entry(buf: nat, seqno: nat, repCount: nat)

  /** t->cast: rep_pack, rep_pos and seq */
  datatype Ring = Ring(slots: seq<Option<Entry>>, pos: nat, seqno: nat)

  datatype Reply = Again(e: Entry) | Spent | Outdated

  /** (pos+j) & REP_CAST_MASK */
  function Place(pos: nat, j: nat): (k: nat)
    requires pos < REP_CAST_SIZE && j <= REP_CAST_SIZE
    ensures k < REP_CAST_SIZE
  {
    if pos + j < REP_CAST_SIZE then pos + j else pos + j - REP_CAST_SIZE
  }

  predicate Shaped(r: Ring) {
    |r.slots| == REP_CAST_SIZE && r.pos < REP_CAST_SIZE && r.seqno < WORD
  }

  function Empty(): Ring {
    Ring(seq(REP_CAST_SIZE, _ => None), 0, 0)
  }

  /** Number a packet as tag_cast_pack does and put it in as __outdate_pack does; the result names the
      buffer that fell out, to be freed. */
  function Cast(r: Ring, buf: nat): (Ring, Option<Entry>)
    requires Shaped(r)
  {
    var n := (r.seqno + 1) % WORD;
    (Ring(r.slots[r.pos := Some(Entry(buf, n, 0))], Place(r.pos, 1), n), r.slots[r.pos])
  }

  /** The scan of __repeat_cast over the newest i places, oldest last; -1 when none matches. */
  function Find(r: Ring, seqno: nat, i: nat): (k: int)
    requires Shaped(r) && i <= REP_CAST_SIZE
    ensures -1 <= k < REP_CAST_SIZE
    ensures k >= 0 ==> r.slots[k].Some? && r.slots[k].value.seqno == seqno
    ensures k < 0 ==> forall j :: 0 <= j < i ==>
              var s := r.slots[Place(r.pos, j)]; s.None? || s.value.seqno != seqno
  {
    if i == 0 then -1
    else
      var k := Place(r.pos, i - 1);
      if r.slots[k].Some? && r.slots[k].value.seqno == seqno then k else Find(r, seqno, i - 1)
  }

  function CountUp(r: Ring, k: nat): (r': Ring)
    requires Shaped(r) && k < REP_CAST_SIZE && r.slots[k].Some?
    ensures Shaped(r')
  {
    var e := r.slots[k].value;
    r.(slots := r.slots[k := Some(e.(repCount := e.repCount + 1))])
  }

  /** One request: repeat at most 8 times, or tell everyone the number is gone. */
  function Repeat(r: Ring, seqno: nat): (Ring, Reply)
    requires Shaped(r)
  {
    var k := Find(r, seqno, REP_CAST_SIZE);
    if k < 0 then (r, Outdated)
    else
      var e := r.slots[k].value;
      if e.repCount < 8 then (CountUp(r, k), Again(e))
      else (r, Spent)
  }

  /** Serve queued requests in order. */
  function RepeatAll(r: Ring, reqs: seq<nat>): (res: (Ring, seq<Reply>))
    requires Shaped(r)
    ensures Shaped(res.0) && |res.1| == |reqs|
  {
    if reqs == [] then (r, [])
    else
      var (r1, replies) := RepeatAll(r, reqs[..|reqs| - 1]);
      var (r2, reply) := Repeat(r1, reqs[|reqs| - 1]);
      (r2, replies + [reply])
  }

  // ---------- the ring against the history of casts ----------

  /** The ring holds exactly the last 16 packets cast, with their consecutive numbers. */
  ghost predicate HoldsLast(r: Ring, cast: seq<nat>) {
    && Shaped(r)
    && r.seqno == |cast| % WORD
    && forall d :: 1 <= d <= REP_CAST_SIZE ==> HoldsBack(r, cast, d)
  }

  /** What the ring holds for the d-th last cast. */
  ghost predicate HoldsBack(r: Ring, cast: seq<nat>, d: nat)
    requires Shaped(r) && 1 <= d <= REP_CAST_SIZE
  {
    var s := r.slots[Place(r.pos, REP_CAST_SIZE - d)];
    if d <= |cast| then
      s.Some? && s.value.buf == cast[|cast| - d] && s.value.seqno == (|cast| - d + 1) % WORD && s.value.repCount <= 8
    else s.None?
  }

  lemma CastHoldsLast(r: Ring, cast: seq<nat>, buf: nat)
    requires HoldsLast(r, cast)
    ensures HoldsLast(Cast(r, buf).0, cast + [buf])
    ensures Cast(r, buf).1.Some? <==> |cast| >= REP_CAST_SIZE
    ensures |cast| >= REP_CAST_SIZE ==> Cast(r, buf).1.value.buf == cast[|cast| - REP_CAST_SIZE]
  {
    var r' := Cast(r, buf).0;
    assert HoldsBack(r, cast, REP_CAST_SIZE);
    assert r'.seqno == |cast + [buf]| % WORD;
    hide HoldsBack;
    forall d | 1 <= d <= REP_CAST_SIZE ensures HoldsBack(r', cast + [buf], d) {
      OneFurtherBack(r, cast, buf, d);
    }
  }

  /** A cast moves every earlier one a place back. */
  lemma OneFurtherBack(r: Ring, cast: seq<nat>, buf: nat, d: nat)
    requires Shaped(r) && r.seqno == |cast| % WORD && 1 <= d <= REP_CAST_SIZE
    requires d > 1 ==> HoldsBack(r, cast, d - 1)
    ensures HoldsBack(Cast(r, buf).0, cast + [buf], d)
  {
    if d > 1 {
      var r' := Cast(r, buf).0;
      assert Place(r'.pos, REP_CAST_SIZE - d) == Place(r.pos, REP_CAST_SIZE - (d - 1)) != r.pos;
      assert |cast + [buf]| - d + 1 == |cast| - (d - 1) + 1;
    }
  }

  lemma RepeatHoldsLast(r: Ring, cast: seq<nat>, seqno: nat)
    requires HoldsLast(r, cast)
    ensures HoldsLast(Repeat(r, seqno).0, cast)
  {
    forall d | 1 <= d <= REP_CAST_SIZE ensures HoldsBack(Repeat(r, seqno).0, cast, d) {
      assert HoldsBack(r, cast, d);
    }
  }

  /** How far back a number lies from the last one cast, 0 for the last, modulo 2^32. */
  function Age(cast: seq<nat>, seqno: nat): (a: nat)
    requires seqno < WORD
    ensures a < WORD
  {
    (|cast| + WORD - seqno) % WORD
  }

  lemma AgeOfBack(n: nat, d: nat)
    requires 1 <= d <= n && d <= REP_CAST_SIZE
    ensures (n + WORD - (n - d + 1) % WORD) % WORD == d - 1
  {
    var q, m := (n - d + 1) / WORD, (n - d + 1) % WORD;
    assert n + WORD - m == (q + 1) * WORD + (d - 1);
  }

  /** An occupied place holds the cast whose number has that age. */
  lemma AgeInRing(r: Ring, cast: seq<nat>, k: nat)
    requires HoldsLast(r, cast) && k < REP_CAST_SIZE && r.slots[k].Some?
    ensures var e := r.slots[k].value;
            e.seqno < WORD && Age(cast, e.seqno) < REP_CAST_SIZE && Age(cast, e.seqno) < |cast|
            && e.buf == cast[|cast| - 1 - Age(cast, e.seqno)]
            && k == Place(r.pos, REP_CAST_SIZE - 1 - Age(cast, e.seqno))
  {
    var d := if r.pos > k then r.pos - k else r.pos + REP_CAST_SIZE - k;
    assert Place(r.pos, REP_CAST_SIZE - d) == k;
    assert HoldsBack(r, cast, d);
    AgeOfBack(|cast|, d);
  }

  /** Conversely a number of that age has its place. */
  lemma RingHasAge(r: Ring, cast: seq<nat>, seqno: nat)
    requires HoldsLast(r, cast) && seqno < WORD && Age(cast, seqno) < REP_CAST_SIZE && Age(cast, seqno) < |cast|
    ensures var s := r.slots[Place(r.pos, REP_CAST_SIZE - 1 - Age(cast, seqno))];
            s.Some? && s.value.seqno == seqno
  {
    var d := Age(cast, seqno) + 1;
    assert HoldsBack(r, cast, d);
    NumberOfAge(|cast|, seqno);
  }

  lemma NumberOfAge(n: nat, seqno: nat)
    requires seqno < WORD && (n + WORD - seqno) % WORD <= n
    ensures (n - (n + WORD - seqno) % WORD) % WORD == seqno
  {
    var q, a := (n + WORD - seqno) / WORD, (n + WORD - seqno) % WORD;
    assert n - a == (q - 1) * WORD + seqno;
  }

  /** The number is one of the last 16 cast. */
  predicate Recent(cast: seq<nat>, seqno: nat)
    requires seqno < WORD
  {
    Age(cast, seqno) < REP_CAST_SIZE && Age(cast, seqno) < |cast|
  }

  /** Where the ring keeps the packet cast under a recent number. */
  function PlaceOf(r: Ring, cast: seq<nat>, seqno: nat): (k: nat)
    requires Shaped(r) && seqno < WORD && Recent(cast, seqno)
    ensures k < REP_CAST_SIZE
  {
    Place(r.pos, REP_CAST_SIZE - 1 - Age(cast, seqno))
  }

  /** A request is answered from the ring exactly when its number is one of the last 16 cast and that packet
      was repeated fewer than 8 times; then with the packet that was cast under it. It is reported outdated
      exactly when the number is not among the last 16. A recent one that was repeated 8 times gets no
      answer. */
  lemma AnsweredExactly(r: Ring, cast: seq<nat>, seqno: nat)
    requires HoldsLast(r, cast) && seqno < WORD
    ensures Repeat(r, seqno).1.Outdated? <==> !Recent(cast, seqno)
    ensures Recent(cast, seqno) ==> r.slots[PlaceOf(r, cast, seqno)].Some?
    ensures Repeat(r, seqno).1.Again? <==>
              Recent(cast, seqno) && r.slots[PlaceOf(r, cast, seqno)].value.repCount < 8
    ensures Repeat(r, seqno).1.Again? ==>
              && Repeat(r, seqno).1.e == r.slots[PlaceOf(r, cast, seqno)].value
              && Repeat(r, seqno).1.e.seqno == seqno
              && Repeat(r, seqno).1.e.buf == cast[|cast| - 1 - Age(cast, seqno)]
              && Repeat(r, seqno).0 == CountUp(r, PlaceOf(r, cast, seqno))
    ensures !Repeat(r, seqno).1.Again? ==> Repeat(r, seqno).0 == r
  {
    hide Age, Find;
    var k := Find(r, seqno, REP_CAST_SIZE);
    if k >= 0 {
      AgeInRing(r, cast, k);
    } else if Recent(cast, seqno) {
      RingHasAge(r, cast, seqno);
    }
  }

  // ---------- how often each cast is repeated ----------

  /** `repeats` lists, by its place in the history, each cast that was repeated, once for each time. */
  function Repeated(repeats: multiset<nat>, cast: seq<nat>, seqno: nat, reply: Reply): multiset<nat>
    requires seqno < WORD
  {
    if reply.Again? && Recent(cast, seqno) then repeats + multiset{|cast| - 1 - Age(cast, seqno)} else repeats
  }

  /** The counters in the ring are those of the history, and none is above 8. */
  ghost predicate Counts(r: Ring, cast: seq<nat>, repeats: multiset<nat>)
    requires Shaped(r)
  {
    && (forall d :: 1 <= d <= REP_CAST_SIZE && d <= |cast| ==> CountsBack(r, |cast|, repeats, d))
    && forall p :: repeats[p] <= 8 && (p >= |cast| ==> repeats[p] == 0)
  }

  ghost predicate CountsBack(r: Ring, n: nat, repeats: multiset<nat>, d: nat)
    requires Shaped(r) && 1 <= d <= REP_CAST_SIZE && d <= n
  {
    var s := r.slots[Place(r.pos, REP_CAST_SIZE - d)];
    s.Some? && s.value.repCount == repeats[n - d]
  }

  lemma CastCounts(r: Ring, cast: seq<nat>, repeats: multiset<nat>, buf: nat)
    requires Shaped(r) && Counts(r, cast, repeats)
    ensures Counts(Cast(r, buf).0, cast + [buf], repeats)
  {
    var r' := Cast(r, buf).0;
    forall d | 1 <= d <= REP_CAST_SIZE && d <= |cast + [buf]| ensures CountsBack(r', |cast + [buf]|, repeats, d) {
      if d > 1 {
        assert CountsBack(r, |cast|, repeats, d - 1);
        assert Place(r'.pos, REP_CAST_SIZE - d) == Place(r.pos, REP_CAST_SIZE - (d - 1)) != r.pos;
      }
    }
  }

  lemma RepeatCounts(r: Ring, cast: seq<nat>, repeats: multiset<nat>, seqno: nat)
    requires HoldsLast(r, cast) && Counts(r, cast, repeats) && seqno < WORD
    ensures
      var (r', reply) := Repeat(r, seqno);
      && Shaped(r') && Counts(r', cast, Repeated(repeats, cast, seqno, reply))
      && (reply.Again? ==> Recent(cast, seqno))
  {
    AnsweredExactly(r, cast, seqno);
    var (r', reply) := Repeat(r, seqno);
    hide HoldsLast, Age, Repeat;
    if reply.Again? {
      var a := Age(cast, seqno);
      var repeats' := Repeated(repeats, cast, seqno, reply);
      assert CountsBack(r, |cast|, repeats, a + 1);
      forall d | 1 <= d <= REP_CAST_SIZE && d <= |cast| ensures CountsBack(r', |cast|, repeats', d) {
        assert CountsBack(r, |cast|, repeats, d);
      }
    }
  }

  /** How often the packet cast last under the number was repeated. */
  function Times(cast: seq<nat>, repeats: multiset<nat>, seqno: nat): nat
    requires seqno < WORD
  {
    if Recent(cast, seqno) then repeats[|cast| - 1 - Age(cast, seqno)] else 0
  }

  /** Said by the history alone: a request is answered exactly while its number is one of the last 16 cast
      and was repeated fewer than 8 times. */
  lemma AnsweredByHistory(r: Ring, cast: seq<nat>, repeats: multiset<nat>, seqno: nat)
    requires HoldsLast(r, cast) && Counts(r, cast, repeats) && seqno < WORD
    ensures Repeat(r, seqno).1.Again? <==> Recent(cast, seqno) && Times(cast, repeats, seqno) < 8
  {
    AnsweredExactly(r, cast, seqno);
    hide HoldsLast, Age, Repeat;
    if Recent(cast, seqno) {
      assert CountsBack(r, |cast|, repeats, Age(cast, seqno) + 1);
    }
  }

  // ---------- a batch of requests ----------

  function Min(a: nat, b: nat): nat {
    if a < b then a else b
  }

  lemma AgesDiffer(cast: seq<nat>, x: nat, y: nat)
    requires x < WORD && y < WORD
    ensures Age(cast, x) == Age(cast, y) <==> x == y
  {
    var n := |cast| + WORD;
    var a, b := (n - x) / WORD, (n - y) / WORD;
    if Age(cast, x) == Age(cast, y) {
      assert x - y == (b - a) * WORD;
    }
  }

  /** One more request counts for its own number, up to 8, and for no other. */
  lemma OneMoreTime(r: Ring, cast: seq<nat>, repeats: multiset<nat>, y: nat, x: nat)
    requires HoldsLast(r, cast) && Counts(r, cast, repeats) && y < WORD && x < WORD && Recent(cast, x)
    ensures
      var repeats' := Repeated(repeats, cast, y, Repeat(r, y).1);
      Times(cast, repeats', x) == Min(8, Times(cast, repeats, x) + if x == y then 1 else 0)
  {
    AnsweredByHistory(r, cast, repeats, y);
    AgesDiffer(cast, x, y);
    assert repeats[|cast| - 1 - Age(cast, x)] <= 8;
    hide HoldsLast, Counts, Age, Repeat;
  }

  /** How often a number was asked for in a batch. */
  function Count(reqs: seq<nat>, x: nat): nat {
    if reqs == [] then 0 else Count(reqs[..|reqs| - 1], x) + if reqs[|reqs| - 1] == x then 1 else 0
  }

  /** The answer to one request of a batch, by the history and the requests before it. */
  predicate Answered(cast: seq<nat>, times: nat, x: nat, reply: Reply)
    requires x < WORD
  {
    && (reply.Outdated? <==> !Recent(cast, x))
    && (reply.Again? <==> Recent(cast, x) && times < 8)
    && (reply.Again? && Recent(cast, x) ==> reply.e.seqno == x && reply.e.buf == cast[|cast| - 1 - Age(cast, x)])
  }

  predicate AllAnswered(cast: seq<nat>, repeats: multiset<nat>, reqs: seq<nat>, replies: seq<Reply>) {
    |replies| == |reqs|
    && forall k :: 0 <= k < |reqs| ==>
         reqs[k] < WORD
         && Answered(cast, Times(cast, repeats, reqs[k]) + Count(reqs[..k], reqs[k]), reqs[k], replies[k])
  }

  /** Each recent number is counted as often as it was asked for, up to 8. */
  ghost predicate Tallied(cast: seq<nat>, repeats: multiset<nat>, repeats': multiset<nat>, reqs: seq<nat>) {
    forall x :: 0 <= x < WORD && Recent(cast, x) ==>
      Times(cast, repeats', x) == Min(8, Times(cast, repeats, x) + Count(reqs, x))
  }

  /** Every request of a batch is answered by itself: with the packet cast under its number exactly while that
      is one of the last 16 and was repeated fewer than 8 times before, by earlier batches and earlier in this
      one; as outdated exactly when it is none of the last 16. Afterwards the ring still holds the last 16, and
      each is counted as often as it was asked for, up to 8. */
  lemma {:induction false} BatchExactly(r: Ring, cast: seq<nat>, repeats: multiset<nat>, reqs: seq<nat>)
    returns (repeats': multiset<nat>)
    requires HoldsLast(r, cast) && Counts(r, cast, repeats) && forall k :: 0 <= k < |reqs| ==> reqs[k] < WORD
    ensures HoldsLast(RepeatAll(r, reqs).0, cast) && Counts(RepeatAll(r, reqs).0, cast, repeats')
    ensures AllAnswered(cast, repeats, reqs, RepeatAll(r, reqs).1)
    ensures Tallied(cast, repeats, repeats', reqs)
  {
    assert Shaped(r);
    hide HoldsLast, Counts, Repeat, Repeated, AllAnswered, Tallied;
    if reqs == [] {
      repeats' := repeats;
      NothingAsked(r, cast, repeats);
    } else {
      var before, y := reqs[..|reqs| - 1], reqs[|reqs| - 1];
      var repeats1 := BatchExactly(r, cast, repeats, before);
      var r1 := RepeatAll(r, before).0;
      repeats' := Repeated(repeats1, cast, y, Repeat(r1, y).1);
      RepeatHoldsLast(r1, cast, y);
      RepeatCounts(r1, cast, repeats1, y);
      TallyOne(r1, cast, repeats, repeats1, before, y);
      AnswerOne(r1, cast, repeats, repeats1, before, y, RepeatAll(r, before).1);
      assert reqs == before + [y];
    }
  }

  lemma NothingAsked(r: Ring, cast: seq<nat>, repeats: multiset<nat>)
    requires Shaped(r) && Counts(r, cast, repeats)
    ensures Tallied(cast, repeats, repeats, []) && AllAnswered(cast, repeats, [], [])
  {
    forall x | 0 <= x < WORD && Recent(cast, x) ensures Times(cast, repeats, x) <= 8 {
      assert repeats[|cast| - 1 - Age(cast, x)] <= 8;
    }
    hide Counts, Age;
  }

  lemma CountOne(reqs: seq<nat>, y: nat, x: nat)
    ensures Count(reqs + [y], x) == Count(reqs, x) + if x == y then 1 else 0
  {
    assert (reqs + [y])[..|reqs|] == reqs;
  }

  lemma TallyOne(r: Ring, cast: seq<nat>, repeats: multiset<nat>, now: multiset<nat>, reqs: seq<nat>, y: nat)
    requires HoldsLast(r, cast) && Counts(r, cast, now) && y < WORD && Tallied(cast, repeats, now, reqs)
    ensures Tallied(cast, repeats, Repeated(now, cast, y, Repeat(r, y).1), reqs + [y])
  {
    assert Shaped(r);
    hide HoldsLast, Counts, Age, Repeat, Times, Recent, Repeated, Count;
    var next := Repeated(now, cast, y, Repeat(r, y).1);
    forall x | 0 <= x < WORD && Recent(cast, x)
      ensures Times(cast, next, x) == Min(8, Times(cast, repeats, x) + Count(reqs + [y], x))
    {
      OneMoreTime(r, cast, now, y, x);
      CountOne(reqs, y, x);
    }
  }

  lemma AnswerOne(
      r: Ring, cast: seq<nat>, repeats: multiset<nat>, now: multiset<nat>, reqs: seq<nat>, y: nat,
      replies: seq<Reply>)
    requires HoldsLast(r, cast) && Counts(r, cast, now) && y < WORD && Tallied(cast, repeats, now, reqs)
    requires AllAnswered(cast, repeats, reqs, replies)
    ensures AllAnswered(cast, repeats, reqs + [y], replies + [Repeat(r, y).1])
  {
    assert Shaped(r);
    hide HoldsLast, Counts, Age, Repeat, Times, Recent, Answered, Count;
    LastAnswered(r, cast, now, y, Times(cast, repeats, y) + Count(reqs, y));
    var all := reqs + [y];
    forall k | 0 <= k < |all|
      ensures Answered(cast, Times(cast, repeats, all[k]) + Count(all[..k], all[k]), all[k],
                       (replies + [Repeat(r, y).1])[k])
    {
      assert all[..k] == reqs[..k];
      assert k == |reqs| ==> reqs[..k] == reqs;
    }
  }

  lemma LastAnswered(r: Ring, cast: seq<nat>, repeats: multiset<nat>, y: nat, times: nat)
    requires HoldsLast(r, cast) && Counts(r, cast, repeats) && y < WORD
    requires Recent(cast, y) ==> Times(cast, repeats, y) == Min(8, times)
    ensures Answered(cast, times, y, Repeat(r, y).1)
  {
    AnsweredByHistory(r, cast, repeats, y);
    AnsweredExactly(r, cast, y);
    hide HoldsLast, Counts, Age, Repeat, Times, Recent;
  }

  /** The fields of t->cast, updated in place. */
  class CastState {
    const repPack: array<Option<Entry>>
    var repPos: nat
    var seqno: nat
    const repReqs: Fifo<nat>
    const bcast: bool     // opt_broadcast
    const tcpAudio: bool  // opt_tcp_audio

    /** Audio goes over TCP and nothing is broadcast: nobody is to repeat anything. */
    predicate NoRepeats() {
      !bcast && tcpAudio
    }

    ghost function Value(): Ring
      reads this, repPack
    {
      Ring(repPack[..], repPos, seqno)
    }

    ghost predicate Ok()
      reads this, repPack, repReqs, repReqs.data
    {
      repPack.Length == REP_CAST_SIZE && Shaped(Value()) && repReqs.Valid() && repReqs.size == 16
    }

    constructor (bcast: bool, tcpAudio: bool)
      ensures this.bcast == bcast && this.tcpAudio == tcpAudio
      ensures Ok() && Value() == Empty() && repReqs.Contents() == []
      ensures fresh(repPack) && fresh(repReqs) && fresh(repReqs.data)
    {
      this.bcast, this.tcpAudio := bcast, tcpAudio;
      repPack := new Option<Entry>[REP_CAST_SIZE](_ => None);
      repPos, seqno := 0, 0;
      repReqs := new Fifo(4);
      assert Pow2(4) == 16;
    }

    /** the numbering of tag_cast_pack, then __outdate_pack; the caller frees what falls out */
    method CastPack(buf: nat) returns (fallen: Option<Entry>)
      requires Ok()
      modifies this`repPos, this`seqno, repPack
      ensures Ok() && (Value(), fallen) == Cast(old(Value()), buf)
    {
      seqno := (seqno + 1) % WORD;
      fallen := repPack[repPos];
      repPack[repPos] := Some(Entry(buf, seqno, 0));
      assert repPack[..] == old(repPack[..])[repPos := repPack[repPos]];
      repPos := Place(repPos, 1);
    }

    /** __repeat_cast */
    method RepeatCast(number: nat) returns (reply: Reply)
      requires Ok()
      modifies repPack
      ensures Ok() && (Value(), reply) == Repeat(old(Value()), number)
    {
      var i := REP_CAST_SIZE;
      while i > 0
        invariant 0 <= i <= REP_CAST_SIZE && repPack[..] == old(repPack[..])
        invariant Find(old(Value()), number, i) == Find(old(Value()), number, REP_CAST_SIZE)
      {
        var k := Place(repPos, i - 1);
        var r := repPack[k];
        if r.Some? && r.value.seqno == number {
          if r.value.repCount < 8 {
            repPack[k] := Some(r.value.(repCount := r.value.repCount + 1));
            assert repPack[..] == old(repPack[..])[k := repPack[k]];
            return Again(r.value);
          }
          return Spent;
        }
        i := i - 1;
      }
      return Outdated;
    }

    /** tag_req_repeat: a request that finds 15 waiting is forgotten */
    method ReqRepeat(number: nat)
      requires Ok()
      modifies repReqs`inn, repReqs.data
      ensures Ok()
      ensures repReqs.Contents() ==
              old(repReqs.Contents()) + if |old(repReqs.Contents())| < 15 && !NoRepeats() then [number] else []
    {
      if NoRepeats() { return; }
      hide Fifo.Contents;
      var full := repReqs.Full();
      if !full {
        repReqs.Put(number);
      }
    }

    /** tag_repeats: every waiting request is answered in order, unless there are to be none */
    method Repeats() returns (replies: seq<Reply>)
      requires Ok()
      modifies repPack, repReqs`out
      ensures Ok()
      ensures NoRepeats() ==> Value() == old(Value()) && replies == [] && repReqs.Contents() == old(repReqs.Contents())
      ensures !NoRepeats() ==>
                repReqs.Contents() == [] && (Value(), replies) == RepeatAll(old(Value()), old(repReqs.Contents()))
    {
      hide Fifo.Contents, Repeat;
      if NoRepeats() { return []; }
      replies := [];
      ghost var reqs := repReqs.Contents();
      ghost var done := 0;
      var empty := repReqs.Empty();
      while !empty
        invariant Ok() && 0 <= done <= |reqs| && repReqs.Contents() == reqs[done..]
        invariant empty <==> done == |reqs|
        invariant (Value(), replies) == RepeatAll(old(Value()), reqs[..done])
        decreases |reqs| - done
      {
        assert reqs[..done + 1][..done] == reqs[..done];
        var number := repReqs.Front();
        var reply := RepeatCast(number);
        replies := replies + [reply];
        var failed, slot := repReqs.Out();
        done := done + 1;
        empty := repReqs.Empty();
      }
      assert reqs[..done] == reqs;
    }
  }
}
