/** serv/db/md.c: the records of one type, on a doubly linked list (include/list.h) and in a chained
    hash whose entries point back at whatever points to them (include/hash.h). */
module MemDb {
  import opened Seqs
  import opened Wrappers

  const HASH_SZ := 1024

  /** A C int. */
  type Id = x: int | -0x8000_0000 <= x < 0x8000_0000

  datatype Record = Record(id: Id, text: string)

  /** The address in hash_pprev: a bucket of the table, or the hash_next field of an entry. */
  datatype Back = Nowhere | Bucket(i: nat) | NextOf(node: Node)

  class Node {
    const data: Record
    var next: Node?
    var prev: Node?
    var hashNext: Node?
    var hashPprev: Back

    constructor (data: Record)
      ensures this.data == data
    {
      this.data := data;
      next, prev, hashNext, hashPprev := null, null, null, Nowhere;
    }
  }

  /** hashfn, on the bits of the id; the mask takes none of the bits a signed shift would bring in. */
  function HashFn(id: Id): (b: nat)
    ensures b < HASH_SZ
  {
    var bits := (id % 0x1_0000_0000) as bv32;
    (((bits >> 8) ^ bits) & 1023) as int
  }

  // ---------- the list ----------

  /** Going round: the head, the entries, the head again. */
  function At(head: Node, nodes: seq<Node>, k: nat): Node {
    if 1 <= k <= |nodes| then nodes[k - 1] else head
  }

  ghost predicate Linked(head: Node, nodes: seq<Node>)
    reads head`next, head`prev, nodes`next, nodes`prev
  {
    && Distinct(nodes) && head !in nodes
    && forall k :: 0 <= k <= |nodes| ==> LinkedAt(head, nodes, k)
  }

  ghost predicate LinkedAt(head: Node, nodes: seq<Node>, k: nat)
    reads head`next, head`prev, nodes`next, nodes`prev
  {
    At(head, nodes, k).next == At(head, nodes, k + 1) && At(head, nodes, k + 1).prev == At(head, nodes, k)
  }

  /** list_add_tail */
  method ListAddTail(m: Node, head: Node, ghost nodes: seq<Node>)
    requires Linked(head, nodes) && m !in nodes && m != head
    modifies m`next, m`prev, head`next, head`prev, nodes`next, nodes`prev
    ensures Linked(head, nodes + [m])
  {
    ghost var n := |nodes|;
    assert LinkedAt(head, nodes, n);
    var prev := head.prev;
    head.prev := m;
    m.next := head;
    m.prev := prev;
    prev.next := m;
    forall k | 0 <= k <= n + 1 ensures LinkedAt(head, nodes + [m], k) {
      assert k < n ==> old(LinkedAt(head, nodes, k));
      assert forall j :: 0 <= j <= n ==> At(head, nodes + [m], j) == At(head, nodes, j);
    }
  }

  function Drop<T>(xs: seq<T>, p: nat): seq<T>
    requires p < |xs|
  {
    xs[..p] + xs[p + 1..]
  }

  /** list_del */
  method ListDel(head: Node, ghost nodes: seq<Node>, ghost p: nat, m: Node)
    requires Linked(head, nodes) && p < |nodes| && nodes[p] == m
    modifies head`next, head`prev, nodes`next, nodes`prev
    ensures Linked(head, Drop(nodes, p))
  {
    assert LinkedAt(head, nodes, p) && LinkedAt(head, nodes, p + 1);
    var prev, next := m.prev, m.next;
    next.prev := prev;
    prev.next := next;
    m.next := null;
    m.prev := null;
    ghost var rest := Drop(nodes, p);
    forall k | 0 <= k <= |rest| ensures LinkedAt(head, rest, k) {
      assert old(LinkedAt(head, nodes, if k <= p then k else k + 1));
      assert At(head, rest, k) == At(head, nodes, if k <= p then k else k + 1);
      assert At(head, rest, k + 1) == At(head, nodes, if k + 1 <= p then k + 1 else k + 2);
    }
  }

  // ---------- the hash ----------

  /** The entries of bucket b, the newest first. */
  ghost function Chain(nodes: seq<Node>, b: nat): (c: seq<Node>)
    ensures forall x :: x in c ==> x in nodes && HashFn(x.data.id) == b
  {
    if nodes == [] then []
    else
      var n := |nodes| - 1;
      if HashFn(nodes[n].data.id) == b then [nodes[n]] + Chain(nodes[..n], b) else Chain(nodes[..n], b)
  }

  lemma {:induction false} ChainDistinct(nodes: seq<Node>, b: nat)
    requires Distinct(nodes)
    ensures Distinct(Chain(nodes, b))
  {
    hide HashFn;
    if nodes != [] {
      ChainDistinct(nodes[..|nodes| - 1], b);
    }
  }

  /** What the hash part of the memory holds: the table and, of each entry, its two links. */
  datatype Links = Links(table: seq<Node?>, next: map<Node, Node?>, back: map<Node, Back>)

  ghost function LinksOf(hash: array<Node?>, nodes: seq<Node>): Links
    reads hash, nodes`hashNext, nodes`hashPprev
  {
    Links(hash[..], map x | x in nodes :: x.hashNext, map x | x in nodes :: x.hashPprev)
  }

  /** Entry k of chain c points to the next, and back at what points to it. */
  ghost predicate ChainedAt(h: Links, b: nat, c: seq<Node>, k: nat)
    requires k < |c|
  {
    && c[k] in h.next && c[k] in h.back
    && h.next[c[k]] == (if k + 1 < |c| then c[k + 1] else null)
    && h.back[c[k]] == (if k == 0 then Bucket(b) else NextOf(c[k - 1]))
  }

  ghost predicate Chained(h: Links, b: nat, c: seq<Node>) {
    && b < |h.table| && h.table[b] == (if c == [] then null else c[0])
    && forall k :: 0 <= k < |c| ==> ChainedAt(h, b, c, k)
  }

  ghost predicate Hashed(h: Links, nodes: seq<Node>) {
    && |h.table| == HASH_SZ
    && forall b :: 0 <= b < HASH_SZ ==> Chained(h, b, Chain(nodes, b))
  }

  /** hash_id: in front of its bucket. */
  ghost function WithHashed(h: Links, m: Node): Links
    requires |h.table| == HASH_SZ
  {
    var i := HashFn(m.data.id);
    var first := h.table[i];
    Links(h.table[i := m], h.next[m := first],
          (if first == null then h.back else h.back[first := NextOf(m)])[m := Bucket(i)])
  }

  /** unhash_id: no search, only the back-pointer. */
  ghost function WithoutHashed(h: Links, m: Node): Links
    requires m in h.next && m in h.back && (h.back[m].Bucket? ==> h.back[m].i < |h.table|)
  {
    var h' := if h.next[m] == null then h else h.(back := h.back[h.next[m] := h.back[m]]);
    match h.back[m]
    case Bucket(i) => h'.(table := h.table[i := h.next[m]])
    case NextOf(before) => h'.(next := h.next[before := h.next[m]])
    case Nowhere => h'
  }

  lemma InFrontOfChain(h: Links, m: Node, c: seq<Node>)
    requires |h.table| == HASH_SZ && Chained(h, HashFn(m.data.id), c) && Distinct(c) && m !in c
    ensures Chained(WithHashed(h, m), HashFn(m.data.id), [m] + c)
  {
    hide HashFn;
    var h', b := WithHashed(h, m), HashFn(m.data.id);
    forall k | 0 <= k <= |c| ensures ChainedAt(h', b, [m] + c, k) {
      assert k > 0 ==> c[k - 1] in c && ChainedAt(h, b, c, k - 1);
    }
  }

  lemma WithHashedSparesChain(h: Links, m: Node, c: seq<Node>, b': nat, c': seq<Node>)
    requires |h.table| == HASH_SZ && Chained(h, HashFn(m.data.id), c)
    requires Chained(h, b', c') && b' != HashFn(m.data.id) && m !in c' && forall x :: x in c' ==> x !in c
    ensures Chained(WithHashed(h, m), b', c')
  {
    hide HashFn;
    var h' := WithHashed(h, m);
    assert c != [] ==> c[0] in c;
    forall k | 0 <= k < |c'| ensures ChainedAt(h', b', c', k) {
      assert c'[k] in c' && ChainedAt(h, b', c', k);
    }
  }

  lemma WithHashedKeeps(h: Links, m: Node, nodes: seq<Node>)
    requires Hashed(h, nodes) && Distinct(nodes) && m !in nodes
    ensures Hashed(WithHashed(h, m), nodes + [m])
  {
    hide HashFn, Chained, Distinct, WithHashed;
    var i := HashFn(m.data.id);
    ChainDistinct(nodes, i);
    assert (nodes + [m])[..|nodes|] == nodes;
    forall b | 0 <= b < HASH_SZ ensures Chained(WithHashed(h, m), b, Chain(nodes + [m], b)) {
      if b == i {
        InFrontOfChain(h, m, Chain(nodes, i));
      } else {
        WithHashedSparesChain(h, m, Chain(nodes, i), b, Chain(nodes, b));
      }
    }
    TableStays(h, m);
  }

  lemma TableStays(h: Links, m: Node)
    requires |h.table| == HASH_SZ
    ensures |WithHashed(h, m).table| == HASH_SZ
  {
  }

  lemma Regroup<T>(x: seq<T>, y: seq<T>, z: seq<T>)
    ensures x + (y + z) == x + y + z
  {
  }

  lemma {:induction false} ChainSplit(a: seq<Node>, c: seq<Node>, b: nat)
    ensures Chain(a + c, b) == Chain(c, b) + Chain(a, b)
  {
    hide HashFn;
    if c == [] {
      assert a + c == a;
    } else {
      hide Chain;
      var c', m := c[..|c| - 1], c[|c| - 1];
      assert c == c' + [m] && a + c == a + c' + [m];
      ChainSplit(a, c', b);
      ChainAppend(c', m, b);
      ChainAppend(a + c', m, b);
      Regroup([m], Chain(c', b), Chain(a, b));
    }
  }

  /** Where entry p of the list stands in its bucket: behind the newer ones. */
  ghost function Depth(nodes: seq<Node>, p: nat): nat
    requires p < |nodes|
  {
    |Chain(nodes[p + 1..], HashFn(nodes[p].data.id))|
  }

  lemma DropMiddle<T>(x: seq<T>, m: T, y: seq<T>)
    ensures Drop(x + [m] + y, |x|) == x + y && (x + [m] + y)[|x|] == m
  {
  }

  lemma ChainAppend(a: seq<Node>, m: Node, b: nat)
    ensures Chain(a + [m], b) == if HashFn(m.data.id) == b then [m] + Chain(a, b) else Chain(a, b)
  {
    hide HashFn;
    assert (a + [m])[..|a|] == a;
  }

  lemma ChainParts(older: seq<Node>, m: Node, newer: seq<Node>, b: nat)
    ensures
      Chain(older + [m] + newer, b) ==
        if HashFn(m.data.id) == b then Chain(newer, b) + [m] + Chain(older, b) else Chain(newer, b) + Chain(older, b)
  {
    hide HashFn, Chain;
    ChainSplit(older + [m], newer, b);
    ChainAppend(older, m, b);
    assert Chain(newer, b) + ([m] + Chain(older, b)) == Chain(newer, b) + [m] + Chain(older, b);
  }

  /** Leaving the list is leaving one bucket and no other. */
  lemma ChainDrop(nodes: seq<Node>, p: nat, b: nat)
    requires p < |nodes|
    ensures
      var own := HashFn(nodes[p].data.id);
      var q := Depth(nodes, p);
      if b == own then
        q < |Chain(nodes, b)| && Chain(nodes, b)[q] == nodes[p] && Chain(Drop(nodes, p), b) == Drop(Chain(nodes, b), q)
      else Chain(Drop(nodes, p), b) == Chain(nodes, b)
  {
    hide Chain, HashFn;
    var older, m, newer := nodes[..p], nodes[p], nodes[p + 1..];
    assert nodes == older + [m] + newer;
    assert Drop(nodes, p) == older + newer;
    hide Drop;
    ChainParts(older, m, newer, b);
    ChainSplit(older, newer, b);
    DropMiddle(Chain(newer, b), m, Chain(older, b));
  }

  /** A bucket loses its entry q and keeps the others in order. */
  lemma BypassKeepsChain(h: Links, b: nat, c: seq<Node>, q: nat)
    requires Chained(h, b, c) && Distinct(c) && q < |c|
    ensures c[q] in h.next && c[q] in h.back && (h.back[c[q]].Bucket? ==> h.back[c[q]].i < |h.table|)
    ensures Chained(WithoutHashed(h, c[q]), b, Drop(c, q))
  {
    assert ChainedAt(h, b, c, q);
    var h', r := WithoutHashed(h, c[q]), Drop(c, q);
    assert q > 0 ==> ChainedAt(h, b, c, q - 1);
    assert q + 1 < |c| ==> ChainedAt(h, b, c, q + 1);
    forall k | 0 <= k < |r| ensures ChainedAt(h', b, r, k) {
      assert ChainedAt(h, b, c, if k < q then k else k + 1);
    }
  }

  /** Another bucket is not touched. */
  lemma BypassSparesChain(h: Links, b: nat, c: seq<Node>, q: nat, b': nat, c': seq<Node>)
    requires Chained(h, b, c) && q < |c| && Chained(h, b', c') && b != b'
    requires forall x :: x in c' ==> x !in c
    requires c[q] in h.next && c[q] in h.back && (h.back[c[q]].Bucket? ==> h.back[c[q]].i < |h.table|)
    ensures Chained(WithoutHashed(h, c[q]), b', c')
  {
    assert ChainedAt(h, b, c, q);
    assert q > 0 ==> c[q - 1] in c;
    assert q + 1 < |c| ==> c[q + 1] in c;
    var h' := WithoutHashed(h, c[q]);
    forall k | 0 <= k < |c'| ensures ChainedAt(h', b', c', k) {
      assert c'[k] in c' && ChainedAt(h, b', c', k);
    }
  }

  /** The entry's back-pointer can be followed, and without the entry every bucket is in order again. */
  lemma WithoutHashedKeeps(h: Links, nodes: seq<Node>, p: nat)
    requires Hashed(h, nodes) && Distinct(nodes) && p < |nodes|
    ensures
      var m := nodes[p];
      && m in h.next && m in h.back && (h.back[m].Bucket? ==> h.back[m].i < |h.table|)
      && Hashed(WithoutHashed(h, m), Drop(nodes, p))
  {
    var own, q := HashFn(nodes[p].data.id), Depth(nodes, p);
    var mine := Chain(nodes, own);
    ChainDrop(nodes, p, own);
    ChainDistinct(nodes, own);
    hide Depth;
    BypassKeepsChain(h, own, mine, q);
    forall b | 0 <= b < HASH_SZ ensures Chained(WithoutHashed(h, mine[q]), b, Chain(Drop(nodes, p), b)) {
      ChainDrop(nodes, p, b);
      if b != own {
        BypassSparesChain(h, own, mine, q, b, Chain(nodes, b));
      }
    }
  }

  /** A bucket's first entry is one of the entries. */
  lemma FirstListed(h: Links, nodes: seq<Node>, i: nat)
    requires Hashed(h, nodes) && i < HASH_SZ
    ensures |h.table| == HASH_SZ && (h.table[i] != null ==> h.table[i] in nodes)
  {
    assert Chained(h, i, Chain(nodes, i));
    assert Chain(nodes, i) != [] ==> Chain(nodes, i)[0] in Chain(nodes, i);
  }

  method HashId(hash: array<Node?>, m: Node, ghost nodes: seq<Node>)
    requires Hashed(LinksOf(hash, nodes), nodes) && Distinct(nodes) && m !in nodes
    modifies hash, m`hashNext, m`hashPprev, nodes`hashPprev
    ensures Hashed(LinksOf(hash, nodes + [m]), nodes + [m])
  {
    ghost var h := LinksOf(hash, nodes);
    var i := HashFn(m.data.id);
    FirstListed(h, nodes, i);
    WithHashedKeeps(h, m, nodes);
    hide Hashed, Chained, ChainedAt, HashFn, Distinct, Chain;
    m.hashNext := hash[i];
    if hash[i] != null {
      hash[i].hashPprev := NextOf(m);
    }
    hash[i] := m;
    m.hashPprev := Bucket(i);
    FewerLinks(WithHashed(h, m), LinksOf(hash, nodes + [m]), nodes + [m]);
  }

  /** What m points to and what points to m are entries, or the table. */
  lemma NeighboursListed(h: Links, nodes: seq<Node>, p: nat)
    requires Hashed(h, nodes) && Distinct(nodes) && p < |nodes|
    ensures
      var m := nodes[p];
      && m in h.next && m in h.back
      && (h.next[m] != null ==> h.next[m] in nodes && h.next[m] != m)
      && (match h.back[m]
          case Bucket(i) => i < |h.table|
          case NextOf(before) => before in nodes && before != m
          case Nowhere => false)
  {
    var own, q := HashFn(nodes[p].data.id), Depth(nodes, p);
    var mine := Chain(nodes, own);
    ChainDrop(nodes, p, own);
    ChainDistinct(nodes, own);
    hide Depth, Chain;
    assert Chained(h, own, mine) && ChainedAt(h, own, mine, q);
    assert q + 1 < |mine| ==> mine[q + 1] in mine;
    assert q > 0 ==> mine[q - 1] in mine;
  }

  method Unhash(hash: array<Node?>, m: Node, ghost nodes: seq<Node>, ghost p: nat)
    requires Hashed(LinksOf(hash, nodes), nodes) && Distinct(nodes) && p < |nodes| && nodes[p] == m
    modifies hash, nodes`hashNext, nodes`hashPprev
    ensures Hashed(LinksOf(hash, Drop(nodes, p)), Drop(nodes, p))
  {
    ghost var h := LinksOf(hash, nodes);
    NeighboursListed(h, nodes, p);
    WithoutHashedKeeps(h, nodes, p);
    hide Hashed, Chained, ChainedAt, HashFn, Drop, Distinct, Chain, Depth;
    if m.hashNext != null {
      m.hashNext.hashPprev := m.hashPprev;
    }
    match m.hashPprev {
      case Bucket(i) => hash[i] := m.hashNext;
      case NextOf(before) => before.hashNext := m.hashNext;
    }
    ghost var h' := WithoutHashed(h, m);
    assert forall x :: x in nodes ==> x.hashNext == h'.next[x] && x.hashPprev == h'.back[x];
    DropWithin(nodes, p);
    FewerLinks(h', LinksOf(hash, Drop(nodes, p)), Drop(nodes, p));
  }

  lemma DropWithin(nodes: seq<Node>, p: nat)
    requires p < |nodes|
    ensures forall x :: x in Drop(nodes, p) ==> x in nodes
  {
  }

  /** Only the links of the entries themselves matter. */
  lemma FewerLinks(h: Links, h': Links, nodes: seq<Node>)
    requires Hashed(h, nodes) && h'.table == h.table
    requires forall x :: x in nodes && x in h.next ==> x in h'.next && h'.next[x] == h.next[x]
    requires forall x :: x in nodes && x in h.back ==> x in h'.back && h'.back[x] == h.back[x]
    ensures Hashed(h', nodes)
  {
    forall b | 0 <= b < HASH_SZ ensures Chained(h', b, Chain(nodes, b)) {
      var c := Chain(nodes, b);
      assert Chained(h, b, c);
      forall k | 0 <= k < |c| ensures ChainedAt(h', b, c, k) {
        assert c[k] in c && ChainedAt(h, b, c, k);
      }
    }
  }

  // ---------- both at once ----------

  /** The list links of an entry and its hash links are different fields. */
  method Enter(head: Node, hash: array<Node?>, m: Node, ghost nodes: seq<Node>)
    requires Linked(head, nodes) && Distinct(nodes) && Hashed(LinksOf(hash, nodes), nodes) && m !in nodes && m != head
    modifies hash, m, head`next, head`prev, nodes
    ensures Linked(head, nodes + [m]) && Hashed(LinksOf(hash, nodes + [m]), nodes + [m])
  {
    hide *;
    ListAddTail(m, head, nodes);
    HashId(hash, m, nodes);
  }

  method Leave(head: Node, hash: array<Node?>, m: Node, ghost nodes: seq<Node>, ghost p: nat)
    requires Linked(head, nodes) && Distinct(nodes) && Hashed(LinksOf(hash, nodes), nodes)
    requires p < |nodes| && nodes[p] == m
    modifies hash, head`next, head`prev, nodes
    ensures Linked(head, Drop(nodes, p)) && Hashed(LinksOf(hash, Drop(nodes, p)), Drop(nodes, p))
  {
    hide Linked, Hashed, LinksOf, Chain, HashFn, Distinct;
    ListDel(head, nodes, p, m);
    Unhash(hash, m, nodes, p);
  }

  // ---------- the table of one record type ----------

  ghost function Records(nodes: seq<Node>): (r: seq<Record>)
    ensures |r| == |nodes| && forall k :: 0 <= k < |r| ==> r[k] == nodes[k].data
  {
    seq(|nodes|, k requires 0 <= k < |nodes| => nodes[k].data)
  }

  lemma RecordsAdd(nodes: seq<Node>, m: Node)
    ensures Records(nodes + [m]) == Records(nodes) + [m.data]
  {
  }

  lemma RecordsDrop(nodes: seq<Node>, p: nat)
    requires p < |nodes|
    ensures Records(Drop(nodes, p)) == Drop(Records(nodes), p) && |Drop(nodes, p)| == |nodes| - 1
  {
  }

  /** The place of the last record with the id, or -1. */
  function LastIndex(recs: seq<Record>, id: Id): (p: int)
    ensures -1 <= p < |recs| && (p >= 0 ==> recs[p].id == id)
    ensures forall k :: p < k < |recs| ==> recs[k].id != id
  {
    if recs == [] then -1
    else if recs[|recs| - 1].id == id then |recs| - 1
    else LastIndex(recs[..|recs| - 1], id)
  }

  function Lookup(recs: seq<Record>, id: Id): Option<Record> {
    var p := LastIndex(recs, id);
    if p < 0 then None else Some(recs[p])
  }

  function Erase(recs: seq<Record>, id: Id): seq<Record> {
    var p := LastIndex(recs, id);
    if p < 0 then recs else Drop(recs, p)
  }

  /** The first entry of a chain with the id. */
  ghost function FirstWith(c: seq<Node>, id: Id): Node? {
    if c == [] then null else if c[0].data.id == id then c[0] else FirstWith(c[1..], id)
  }

  /** The first in the bucket is the last in the list. */
  lemma {:induction false} FirstIsNewest(nodes: seq<Node>, id: Id)
    ensures
      var p := LastIndex(Records(nodes), id);
      FirstWith(Chain(nodes, HashFn(id)), id) == if p < 0 then null else nodes[p]
  {
    hide HashFn;
    if nodes != [] {
      var older := nodes[..|nodes| - 1];
      FirstIsNewest(older, id);
      assert Records(nodes)[..|nodes| - 1] == Records(older);
      if HashFn(nodes[|nodes| - 1].data.id) == HashFn(id) {
        assert Chain(nodes, HashFn(id))[1..] == Chain(older, HashFn(id));
      }
    }
  }

  /** `nodes` is what the list holds, in order. */
  class Table {
    const head: Node
    const hash: array<Node?>
    var n: int
    ghost var nodes: seq<Node>

    ghost predicate Valid()
      reads this, head, hash, nodes
    {
      Linked(head, nodes) && Hashed(LinksOf(hash, nodes), nodes) && n == |nodes|
    }

    ghost function View(): seq<Record>
      reads this
    {
      Records(nodes)
    }

    constructor ()
      ensures Valid() && fresh(head) && fresh(hash) && View() == []
    {
      var h := new Node(Record(0, ""));
      head := h;
      hash := new Node?[HASH_SZ](_ => null);
      n := 0;
      nodes := [];
      new;
      head.next := head;
      head.prev := head;
    }

    /** The chain walk of find_by_id. */
    method FindNode(id: Id) returns (m: Node?)
      requires Valid()
      ensures m == var p := LastIndex(View(), id); if p < 0 then null else nodes[p]
    {
      ghost var h, b := LinksOf(hash, nodes), HashFn(id);
      ghost var c, k := Chain(nodes, b), 0;
      FirstIsNewest(nodes, id);
      assert Chained(h, b, c);
      hide Chain, HashFn, Hashed, LastIndex, Linked, LinkedAt, At, Records;
      m := hash[HashFn(id)];
      while m != null && m.data.id != id
        invariant k <= |c| && m == (if k < |c| then c[k] else null)
        invariant FirstWith(c, id) == FirstWith(c[k..], id)
        decreases |c| - k
      {
        assert ChainedAt(h, b, c, k);
        assert c[k..][1..] == c[k + 1..];
        m := m.hashNext;
        k := k + 1;
      }
    }

    /** md_find: found exactly when the list holds the id. */
    method Find(id: Id) returns (r: Option<Record>)
      requires Valid()
      ensures r == Lookup(View(), id)
      ensures r.Some? <==> exists k :: 0 <= k < |View()| && View()[k].id == id
    {
      var m := FindNode(id);
      if m == null { return None; }
      return Some(m.data);
    }

    /** md_add; `failed` is the result of the database. */
    method Add(r: Record, failed: int) returns (result: int)
      requires Valid()
      modifies this`n, this`nodes, head`next, head`prev, hash, nodes
      ensures Valid() && result == failed
      ensures View() == if failed != 0 then old(View()) else old(View()) + [r]
    {
      hide Linked, LinkedAt, At, Hashed, LinksOf, Records;
      if failed != 0 { return failed; }
      var m := new Node(r);
      RecordsAdd(nodes, m);
      Insert(m);
      return 0;
    }

    method Insert(m: Node)
      requires Valid() && m !in nodes && m != head
      modifies this`n, this`nodes, head`next, head`prev, hash, nodes, m
      ensures Valid() && nodes == old(nodes) + [m]
    {
      assert Distinct(nodes);
      hide Linked, LinkedAt, At, Hashed, Chained, ChainedAt, Chain, LinksOf, HashFn, Distinct;
      ghost var was := nodes;
      nodes := was + [m];
      Enter(head, hash, m, was);
      n := n + 1;
    }

    method Remove(m: Node, ghost p: nat)
      requires Valid() && p < |nodes| && nodes[p] == m
      modifies this`n, this`nodes, head`next, head`prev, hash, nodes
      ensures Valid() && nodes == Drop(old(nodes), p)
    {
      assert Distinct(nodes) && head !in nodes;
      RecordsDrop(nodes, p);
      hide Linked, LinkedAt, At, Hashed, Chained, ChainedAt, Chain, LinksOf, HashFn, Distinct, Drop, Records;
      ghost var was := nodes;
      nodes := Drop(was, p);
      Leave(head, hash, m, was, p);
      n := n - 1;
    }

    /** md_del */
    method Del(id: Id, failed: int) returns (result: int)
      requires Valid()
      modifies this`n, this`nodes, head`next, head`prev, hash, nodes
      ensures Valid() && result == failed
      ensures View() == if failed != 0 then old(View()) else Erase(old(View()), id)
    {
      hide Valid, Records, LastIndex, Drop;
      if failed != 0 { return failed; }
      var m := FindNode(id);
      if m != null {
        ghost var p := LastIndex(View(), id);
        RecordsDrop(nodes, p);
        Remove(m, p);
      }
      return 0;
    }

    /** md_clear */
    method Clear(failed: int) returns (result: int)
      requires Valid()
      modifies this`n, this`nodes, head`next, head`prev, hash
      ensures Valid() && result == failed
      ensures View() == if failed != 0 then old(View()) else []
    {
      if failed != 0 { return failed; }
      head.next := head;
      head.prev := head;
      for i := 0 to HASH_SZ
        invariant hash.Length == HASH_SZ && forall b :: 0 <= b < i ==> hash[b] == null
        invariant head.next == head == head.prev
      {
        hash[i] := null;
      }
      n := 0;
      nodes := [];
      assert LinkedAt(head, nodes, 0);
      assert forall b :: 0 <= b < HASH_SZ ==> Chained(LinksOf(hash, nodes), b, []);
      return 0;
    }

    /** md_get_count */
    method Count() returns (c: int)
      requires Valid()
      ensures c == |View()|
    {
      c := n;
    }

    /** md_get_array: every entry once in insertion order, and a null behind the last. */
    method GetArray(a: array<Node?>) returns (count: nat)
      requires Valid() && a != hash && a.Length > |nodes|
      modifies a
      ensures Valid() && count == |View()|
      ensures a[..count] == nodes && a[count] == null
    {
      count := 0;
      assert LinkedAt(head, nodes, 0);
      var m := head.next;
      while m != head
        invariant Valid() && count <= |nodes| && m == At(head, nodes, count + 1)
        invariant a[..count] == nodes[..count]
        decreases |nodes| - count
      {
        assert LinkedAt(head, nodes, count + 1);
        a[count] := m;
        count := count + 1;
        m := m.next;
      }
      a[count] := null;
    }

    /** md_iterate_next from cursor position k, 0 before the first call: the next entry, or null
        after the last, when the cursor stays. */
    method IterateNext(it: Node?, ghost k: nat) returns (it': Node?, m: Node?)
      requires Valid() && k <= |nodes| && it == (if k == 0 then null else nodes[k - 1])
      ensures k == |nodes| ==> m == null && it' == it
      ensures k < |nodes| ==> m == it' == nodes[k]
    {
      assert LinkedAt(head, nodes, k);
      var p := if it == null then head else it;
      p := p.next;
      if p == head { return it, null; }
      return p, p;
    }

    /** Calling md_iterate_next until it has no more gives every record once, in insertion order. */
    method IterateAll() returns (all: seq<Record>)
      requires Valid()
      ensures all == View()
    {
      all := [];
      var it, m := IterateNext(null, 0);
      while m != null
        invariant |all| <= |nodes| && all == Records(nodes)[..|all|]
        invariant |all| < |nodes| ==> m == it == nodes[|all|]
        invariant |all| == |nodes| ==> m == null
        decreases |nodes| - |all|
      {
        all := all + [m.data];
        it, m := IterateNext(it, |all|);
      }
    }
  }

  // ---------- runs ----------

  datatype Call = Adding(r: Record, failed: int) | Deleting(id: Id, failed: int) | Clearing(failed: int)

  function Do(recs: seq<Record>, c: Call): seq<Record> {
    match c
    case Adding(r, failed) => if failed != 0 then recs else recs + [r]
    case Deleting(id, failed) => if failed != 0 then recs else Erase(recs, id)
    case Clearing(failed) => if failed != 0 then recs else []
  }

  function DoAll(calls: seq<Call>): seq<Record> {
    if calls == [] then [] else Do(DoAll(calls[..|calls| - 1]), calls[|calls| - 1])
  }

  /** The same calls on a dictionary. */
  function Dictionary(calls: seq<Call>): map<Id, Record> {
    if calls == [] then map[]
    else
      var d := Dictionary(calls[..|calls| - 1]);
      match calls[|calls| - 1]
      case Adding(r, failed) => if failed != 0 then d else d[r.id := r]
      case Deleting(id, failed) => if failed != 0 then d else d - {id}
      case Clearing(failed) => if failed != 0 then d else map[]
  }

  /** No record is added under an id that is still there: the database's primary key. */
  ghost predicate FreshAdds(calls: seq<Call>) {
    forall k :: 0 <= k < |calls| && calls[k].Adding? && calls[k].failed == 0 ==>
      calls[k].r.id !in Dictionary(calls[..k])
  }

  ghost predicate SameAs(recs: seq<Record>, d: map<Id, Record>) {
    && |recs| == |d|
    && (forall a, b :: 0 <= a < b < |recs| ==> recs[a].id != recs[b].id)
    && (forall k :: 0 <= k < |recs| ==> recs[k].id in d && d[recs[k].id] == recs[k])
    && (forall id :: id in d ==> d[id] in recs && d[id].id == id)
  }

  lemma AddSame(recs: seq<Record>, d: map<Id, Record>, r: Record)
    requires SameAs(recs, d) && r.id !in d
    ensures SameAs(recs + [r], d[r.id := r])
  {
    var recs', d' := recs + [r], d[r.id := r];
    assert |d'| == |d| + 1 by {
      assert d'.Keys == d.Keys + {r.id};
    }
    assert recs'[|recs|] == r;
    forall k | 0 <= k < |recs'| ensures recs'[k].id in d' && d'[recs'[k].id] == recs'[k] {
      assert k < |recs| ==> recs[k].id in d;
    }
    forall id | id in d' ensures d'[id] in recs' && d'[id].id == id {
      if id != r.id {
        var k :| 0 <= k < |recs| && recs[k] == d[id];
        assert recs'[k] == d'[id];
      }
    }
    forall a, b | 0 <= a < b < |recs'| ensures recs'[a].id != recs'[b].id {
      assert recs[a].id in d;
    }
  }

  lemma EraseSame(recs: seq<Record>, d: map<Id, Record>, id: Id)
    requires SameAs(recs, d)
    ensures SameAs(Erase(recs, id), d - {id})
  {
    LookupSame(recs, d, id);
    var p := LastIndex(recs, id);
    hide LastIndex;
    if p < 0 {
      assert d - {id} == d;
    } else {
      DropSame(recs, d, p);
    }
  }

  lemma DropSame(recs: seq<Record>, d: map<Id, Record>, p: nat)
    requires SameAs(recs, d) && p < |recs|
    ensures SameAs(Drop(recs, p), d - {recs[p].id})
  {
    var id := recs[p].id;
    var recs', d' := Drop(recs, p), d - {id};
    assert |d'| == |d| - 1 by {
      assert d'.Keys == d.Keys - {id};
    }
    DropAt(recs, p);
    forall k | 0 <= k < |recs'| ensures recs'[k].id in d' && d'[recs'[k].id] == recs'[k] {
      DropMaps(recs, d, p, k);
    }
    forall a, b | 0 <= a < b < |recs'| ensures recs'[a].id != recs'[b].id {
      DropDiffer(recs, d, p, a, b);
    }
    forall x | x in d' ensures d'[x] in recs' && d'[x].id == x {
      DropFinds(recs, d, p, x);
    }
    hide Drop;
  }

  lemma DropMaps(recs: seq<Record>, d: map<Id, Record>, p: nat, k: nat)
    requires SameAs(recs, d) && p < |recs| && k < |Drop(recs, p)|
    ensures
      var r := Drop(recs, p)[k];
      r.id != recs[p].id && r.id in d && d[r.id] == r
  {
    var j := if k < p then k else k + 1;
    assert Drop(recs, p)[k] == recs[j] && j != p;
    assert if j < p then recs[j].id != recs[p].id else recs[p].id != recs[j].id;
  }

  lemma DropDiffer(recs: seq<Record>, d: map<Id, Record>, p: nat, a: nat, b: nat)
    requires SameAs(recs, d) && p < |recs| && a < b < |Drop(recs, p)|
    ensures Drop(recs, p)[a].id != Drop(recs, p)[b].id
  {
    var i, j := if a < p then a else a + 1, if b < p then b else b + 1;
    assert Drop(recs, p)[a] == recs[i] && Drop(recs, p)[b] == recs[j];
  }

  lemma DropFinds(recs: seq<Record>, d: map<Id, Record>, p: nat, x: Id)
    requires SameAs(recs, d) && p < |recs| && x in d && x != recs[p].id
    ensures d[x] in Drop(recs, p) && d[x].id == x
  {
    var k :| 0 <= k < |recs| && recs[k] == d[x];
    assert Drop(recs, p)[if k < p then k else k - 1] == d[x];
  }

  lemma DropAt<T>(xs: seq<T>, p: nat)
    requires p < |xs|
    ensures |Drop(xs, p)| == |xs| - 1
    ensures forall k :: 0 <= k < |xs| - 1 ==> Drop(xs, p)[k] == xs[if k < p then k else k + 1]
  {
  }

  lemma LookupSame(recs: seq<Record>, d: map<Id, Record>, id: Id)
    requires SameAs(recs, d)
    ensures Lookup(recs, id) == if id in d then Some(d[id]) else None
  {
    if id in d {
      var k :| 0 <= k < |recs| && recs[k] == d[id];
    }
  }

  lemma FreshPrefix(calls: seq<Call>)
    requires FreshAdds(calls) && calls != []
    ensures FreshAdds(calls[..|calls| - 1])
  {
    var before := calls[..|calls| - 1];
    hide Dictionary;
    forall k | 0 <= k < |before| && before[k].Adding? && before[k].failed == 0
      ensures before[k].r.id !in Dictionary(before[..k])
    {
      assert before[..k] == calls[..k] && before[k] == calls[k];
    }
  }

  lemma {:induction false} CallsSame(calls: seq<Call>)
    requires FreshAdds(calls)
    ensures SameAs(DoAll(calls), Dictionary(calls))
  {
    if calls != [] {
      var before, last := calls[..|calls| - 1], calls[|calls| - 1];
      FreshPrefix(calls);
      CallsSame(before);
      hide SameAs, Erase;
      match last
      case Adding(r, failed) => if failed == 0 { AddSame(DoAll(before), Dictionary(before), r); }
      case Deleting(id, failed) => EraseSame(DoAll(before), Dictionary(before), id);
      case Clearing(_) => NothingSame();
    }
  }

  lemma NothingSame()
    ensures SameAs([], map[])
  {
  }

  /** While ids are not added twice the list with its hash is a dictionary: as many entries, and each id
      found exactly with the record it was last added with. */
  lemma TableIsDictionary(calls: seq<Call>, id: Id)
    requires FreshAdds(calls)
    ensures |DoAll(calls)| == |Dictionary(calls)|
    ensures Lookup(DoAll(calls), id) == if id in Dictionary(calls) then Some(Dictionary(calls)[id]) else None
  {
    CallsSame(calls);
    LookupSame(DoAll(calls), Dictionary(calls), id);
  }

  /** Deleting undoes the last addition, even of an id that was there before: the older record is found
      again. So an id is gone after a delete exactly when it was there at most once. */
  lemma DeleteUndoesAdd(recs: seq<Record>, r: Record)
    ensures Erase(recs + [r], r.id) == recs
    ensures Lookup(Erase(recs + [r], r.id), r.id) == Lookup(recs, r.id)
  {
  }

  lemma GoneIffSingle(recs: seq<Record>, id: Id)
    ensures Lookup(Erase(recs, id), id) == None <==>
            forall a, b :: 0 <= a < b < |recs| && recs[a].id == id ==> recs[b].id != id
  {
    var p := LastIndex(recs, id);
    if p >= 0 {
      var rest := Erase(recs, id);
      var q := LastIndex(rest, id);
      if q >= 0 {
        assert recs[q] == rest[q];
      } else {
        assert forall a :: 0 <= a < p ==> rest[a] == recs[a];
      }
    }
  }
}
