/** Cutting byte streams: serv/network.c cuts a device's audio stream into packets of 524 bytes,
    serv/cmd_manage.c cuts a manager's stream into lines. The packets do not depend on how the network
    cut the stream before. The lines returned do not either, but how many of them are returned does. */
module Frames {
  import opened Seqs

  const PACK_SIZE := 524
  const MAXPACK := 1800

  function Cut(s: seq<int>): (r: seq<seq<int>>)
    ensures forall k :: 0 <= k < |r| ==> |r[k]| == PACK_SIZE
  {
    if |s| < PACK_SIZE then [] else [s[..PACK_SIZE]] + Cut(s[PACK_SIZE..])
  }

  function Rest(s: seq<int>): (r: seq<int>)
    ensures |r| < PACK_SIZE
  {
    if |s| < PACK_SIZE then s else Rest(s[PACK_SIZE..])
  }

  function Flat(frames: seq<seq<int>>): seq<int> {
    if frames == [] then [] else frames[0] + Flat(frames[1..])
  }

  /** Nothing is lost, added or moved. */
  lemma {:induction false} CutKeepsBytes(s: seq<int>)
    ensures Flat(Cut(s)) + Rest(s) == s
  {
    if |s| >= PACK_SIZE {
      CutKeepsBytes(s[PACK_SIZE..]);
      assert Cut(s)[1..] == Cut(s[PACK_SIZE..]);
      assert s == s[..PACK_SIZE] + s[PACK_SIZE..];
    }
  }

  /** Cutting what has come and then, behind its rest, what comes later is cutting all of it. */
  lemma {:induction false} CutInParts(a: seq<int>, b: seq<int>)
    ensures Cut(a + b) == Cut(a) + Cut(Rest(a) + b) && Rest(a + b) == Rest(Rest(a) + b)
  {
    if |a| >= PACK_SIZE {
      assert (a + b)[..PACK_SIZE] == a[..PACK_SIZE];
      assert (a + b)[PACK_SIZE..] == a[PACK_SIZE..] + b;
      CutInParts(a[PACK_SIZE..], b);
    }
  }

  /** The packets delivered when the stream comes in the given pieces, with a part of one held at first. */
  function Delivered(held: seq<int>, pieces: seq<seq<int>>): seq<seq<int>>
    decreases |pieces|
  {
    if pieces == [] then [] else Cut(held + pieces[0]) + Delivered(Rest(held + pieces[0]), pieces[1..])
  }

  function Held(held: seq<int>, pieces: seq<seq<int>>): seq<int>
    decreases |pieces|
  {
    if pieces == [] then held else Held(Rest(held + pieces[0]), pieces[1..])
  }

  /** However the network cuts the stream, the packets are the 524-byte pieces of all of it, and what is
      held is the rest. */
  lemma {:induction false} CutsDoNotMatter(held: seq<int>, pieces: seq<seq<int>>)
    requires |held| < PACK_SIZE
    ensures Delivered(held, pieces) == Cut(held + Flat(pieces))
    ensures Held(held, pieces) == Rest(held + Flat(pieces))
    ensures Flat(Delivered(held, pieces)) + Held(held, pieces) == held + Flat(pieces)
    decreases |pieces|
  {
    CutKeepsBytes(held + Flat(pieces));
    if pieces == [] {
      assert held + Flat(pieces) == held;
    } else {
      var first := held + pieces[0];
      CutsDoNotMatter(Rest(first), pieces[1..]);
      CutInParts(first, Flat(pieces[1..]));
      assert held + Flat(pieces) == first + Flat(pieces[1..]);
    }
  }

  /** The packets among frames that pack_recv took over: its k-th answer may depend on anything. */
  function Kept(frames: seq<seq<int>>, taken: nat -> bool): seq<seq<int>> {
    if frames == [] then []
    else
      var n := |frames| - 1;
      Kept(frames[..n], taken) + (if taken(n) then [frames[n]] else [])
  }

  lemma CutOne(frame: seq<int>, s: seq<int>)
    requires |frame| == PACK_SIZE
    ensures Cut(frame + s) == [frame] + Cut(s) && Rest(frame + s) == Rest(s)
  {
    assert (frame + s)[..PACK_SIZE] == frame && (frame + s)[PACK_SIZE..] == s;
  }

  lemma CutNone(s: seq<int>)
    requires |s| < PACK_SIZE
    ensures Cut(s) == [] && Rest(s) == s
  {
  }

  lemma KeptNone(taken: nat -> bool)
    ensures Kept([], taken) == []
  {
  }

  lemma KeptOne(frames: seq<seq<int>>, frame: seq<int>, taken: nat -> bool)
    ensures Kept(frames + [frame], taken) == Kept(frames, taken) + if taken(|frames|) then [frame] else []
  {
    assert (frames + [frame])[..|frames|] == frames;
  }

  /** run_recv_audio's local state. */
  class AudioReceiver {
    var pack: array<int>
    var pklen: nat
    var pkrem: nat

    ghost predicate Valid()
      reads this
    {
      pack.Length == MAXPACK && pklen + pkrem == PACK_SIZE && pklen < PACK_SIZE
    }

    ghost function Partial(): seq<int>
      requires Valid()
      reads this, pack
    {
      pack[..pklen]
    }

    constructor ()
      ensures Valid() && fresh(pack) && Partial() == []
    {
      pack := new int[MAXPACK];
      pklen := 0;
      pkrem := PACK_SIZE;
    }

    /** The copy of at most pkrem bytes, one round of the inner loop without the delivery. */
    method Fill(bytes: seq<int>)
      requires pack.Length == MAXPACK && pklen + pkrem == PACK_SIZE && |bytes| <= pkrem
      modifies this`pklen, this`pkrem, pack
      ensures pklen == old(pklen) + |bytes| && pklen + pkrem == PACK_SIZE
      ensures pack[..pklen] == old(pack[..pklen]) + bytes
    {
      forall j | 0 <= j < |bytes| {
        pack[pklen + j] := bytes[j];
      }
      pklen := pklen + |bytes|;
      pkrem := pkrem - |bytes|;
    }

    /** A full packet goes to pack_recv; if it takes it over, a new one is allocated. */
    method Deliver(taken: bool) returns (ghost frame: seq<int>, given: seq<array<int>>)
      requires pack.Length == MAXPACK && pklen == PACK_SIZE
      modifies this
      ensures Valid() && pklen == 0 && frame == old(pack[..PACK_SIZE])
      ensures if taken then given == [old(pack)] && fresh(pack) else given == [] && pack == old(pack)
    {
      frame := pack[..PACK_SIZE];
      given := [];
      if taken {
        given := [pack];
        pack := new int[MAXPACK];
      }
      pklen := 0;
      pkrem := PACK_SIZE;
    }

    /** The packets given away hold what pack_recv took over. */
    ghost predicate Hold(given: seq<array<int>>, kept: seq<seq<int>>)
      reads given
    {
      |given| == |kept|
      && forall k :: 0 <= k < |given| ==> given[k].Length == MAXPACK && given[k][..PACK_SIZE] == kept[k]
    }

    /** What run_recv_audio does with the bytes of one recv; taken(k) says that pack_recv returns 0 for
        the k-th packet they fill. A packet it took over is not written again. */
    method Receive(buf: seq<int>, taken: nat -> bool)
      returns (ghost frames: seq<seq<int>>, given: seq<array<int>>)
      requires Valid()
      modifies this, pack
      ensures Valid()
      ensures frames == Cut(old(Partial()) + buf) && Partial() == Rest(old(Partial()) + buf)
      ensures Hold(given, Kept(frames, taken))
      ensures Distinct(given) && pack !in given
      ensures forall x :: x in given || x == pack ==> x == old(pack) || fresh(x)
    {
      hide Cut, Rest, Kept;
      frames, given := [], [];
      var count := 0;
      KeptNone(taken);
      ghost var all := Partial() + buf;
      var boff := 0;
      assert all == Partial() + buf[boff..];
      assert frames + Cut(all) == Cut(all);
      while boff < |buf|
        invariant Valid() && boff <= |buf|
        invariant Cut(all) == frames + Cut(Partial() + buf[boff..])
        invariant Rest(all) == Rest(Partial() + buf[boff..])
        invariant count == |frames| && Hold(given, Kept(frames, taken))
        invariant Distinct(given) && pack !in given
        invariant forall x :: x in given || x == pack ==> x == old(pack) || fresh(x)
      {
        var l := if |buf| - boff < pkrem then |buf| - boff else pkrem;
        ghost var was := Partial() + buf[boff..];
        assert was == (Partial() + buf[boff..boff + l]) + buf[boff + l..];
        Fill(buf[boff..boff + l]);
        boff := boff + l;
        if pklen == PACK_SIZE {
          CutOne(pack[..PACK_SIZE], buf[boff..]);
          ghost var frame;
          var more;
          frame, more := Deliver(taken(count));
          assert Partial() + buf[boff..] == buf[boff..];
          KeptOne(frames, frame, taken);
          assert frames + ([frame] + Cut(buf[boff..])) == frames + [frame] + Cut(buf[boff..]);
          frames := frames + [frame];
          count := count + 1;
          given := given + more;
        }
      }
      assert Partial() + buf[boff..] == Partial();
      CutNone(Partial());
    }
  }
}

module Lines {

  const CMD_MAX := 10240
  const BUFLEN := CMD_MAX + 100

  /** What recvbuf may hold: recv is never asked to go beyond it. */
  const LIMIT := BUFLEN - 100

  const NEWLINE := 10

  /** One recv call on the connection: bytes, a timeout, an error, or the end. */
  datatype Arrival = Got(bytes: seq<int>) | Again | Failed | Closed

  /** recvbuf[start .. start + len] is `held`; `script` is what the connection still brings. */
  datatype State = State(start: nat, held: seq<int>, script: seq<Arrival>)

  predicate Fits(s: State) {
    s.start + |s.held| <= LIMIT && (s.held == [] ==> s.start == 0)
  }

  /** The first newline, or the length. */
  function Find(s: seq<int>): (k: nat)
    ensures k <= |s| && (k < |s| ==> s[k] == NEWLINE) && forall j :: 0 <= j < k ==> s[j] != NEWLINE
  {
    if s == [] then 0 else if s[0] == NEWLINE then 0 else 1 + Find(s[1..])
  }

  /** What the connection will have brought. */
  function Bytes(script: seq<Arrival>): seq<int> {
    if script == [] then [] else (if script[0].Got? then script[0].bytes else []) + Bytes(script[1..])
  }

  /** recv with `room` bytes of room: what is left of a longer arrival comes with the next call. Asked
      for nothing it answers 0, which looks like the end of the connection. */
  function Recv(script: seq<Arrival>, room: nat): (r: (Arrival, seq<Arrival>))
    ensures r.0.Got? ==> 0 < |r.0.bytes| <= room
  {
    if script == [] || room == 0 then (Closed, script)
    else
      match script[0]
      case Got(b) =>
        if |b| == 0 then (Closed, script[1..])
        else if |b| <= room then (Got(b), script[1..])
        else (Got(b[..room]), [Got(b[room..])] + script[1..])
      case other => (other, script[1..])
  }

  lemma BytesFirst(a: Arrival, rest: seq<Arrival>)
    ensures Bytes([a] + rest) == (if a.Got? then a.bytes else []) + Bytes(rest)
  {
    assert ([a] + rest)[1..] == rest;
  }

  lemma RecvKeepsBytes(script: seq<Arrival>, room: nat)
    ensures
      var (a, rest) := Recv(script, room);
      Bytes(script) == (if a.Got? then a.bytes else []) + Bytes(rest)
      && (a.Got? || a.Again? ==> |Bytes(rest)| + |rest| < |Bytes(script)| + |script|)
  {
    if script == [] || room == 0 {
      assert [] + Bytes(script) == Bytes(script);
    } else {
      var first, tail := script[0], script[1..];
      assert script == [first] + tail;
      BytesFirst(first, tail);
      hide Bytes;
      if first.Got? && |first.bytes| > room {
        RecvSplits(first.bytes, tail, room);
      } else if first.Got? && first.bytes == [] {
        assert Recv(script, room) == (Closed, tail);
      } else {
        assert Recv(script, room) == (first, tail);
      }
    }
  }

  lemma RecvSplits(b: seq<int>, tail: seq<Arrival>, room: nat)
    requires 0 < room < |b|
    ensures Recv([Got(b)] + tail, room) == (Got(b[..room]), [Got(b[room..])] + tail)
    ensures b + Bytes(tail) == b[..room] + Bytes([Got(b[room..])] + tail)
    ensures |Bytes([Got(b[room..])] + tail)| < |b + Bytes(tail)|
  {
    BytesFirst(Got(b[room..]), tail);
    assert ([Got(b)] + tail)[1..] == tail;
    hide Bytes;
    assert b + Bytes(tail) == b[..room] + (b[room..] + Bytes(tail));
  }

  /** What one round of recv_line's loop comes to: its result, or another round. */
  datatype Round = Over(line: seq<int>, s: State) | More(s: State)

  function OneRound(s: State): (r: Round)
    requires Fits(s)
    ensures Fits(r.s)
    ensures r.More? ==> |Bytes(r.s.script)| + |r.s.script| < |Bytes(s.script)| + |s.script|
  {
    var k := Find(s.held);
    if k < |s.held| then
      var held := s.held[k + 1..];
      Over(s.held[..k + 1], State(if held == [] then 0 else s.start + k + 1, held, s.script))
    else
      var (a, rest) := Recv(s.script, LIMIT - s.start - |s.held|);
      RecvKeepsBytes(s.script, LIMIT - s.start - |s.held|);
      if a.Got? then More(State(s.start, s.held + a.bytes, rest))
      else if a.Again? then More(s.(script := rest))
      else Over([], s.(script := rest))
  }

  /** recv_line: the line, or nothing for its result 0. */
  function RecvLine(s: State): (r: (seq<int>, State))
    requires Fits(s)
    ensures Fits(r.1)
    decreases |Bytes(s.script)| + |s.script|
  {
    var r := OneRound(s);
    if r.More? then RecvLine(r.s) else (r.line, r.s)
  }

  // ---------- the code ----------

  class LineReader {
    const recvbuf: array<int>
    var start: nat
    var len: nat
    var script: seq<Arrival>

    ghost predicate Valid()
      reads this, recvbuf
    {
      recvbuf.Length == BUFLEN && start + len <= LIMIT && Fits(View())
    }

    ghost function View(): State
      requires recvbuf.Length == BUFLEN && start + len <= LIMIT
      reads this, recvbuf
    {
      State(start, recvbuf[start..start + len], script)
    }

    constructor (script: seq<Arrival>)
      ensures Valid() && View() == State(0, [], script) && fresh(recvbuf)
    {
      recvbuf := new int[BUFLEN];
      start, len := 0, 0;
      this.script := script;
    }

    /** memchr over what is held, -1 for none. */
    method FindNewline() returns (k: int)
      requires Valid()
      ensures k == if Find(View().held) < len then Find(View().held) else -1
    {
      ghost var held := View().held;
      for i := 0 to len
        invariant Find(held) == i + Find(held[i..])
      {
        assert held[i..][0] == held[i] == recvbuf[start + i] && held[i..][1..] == held[i + 1..];
        if recvbuf[start + i] == NEWLINE {
          return i;
        }
      }
      return -1;
    }

    /** recv into recvbuf behind what is held: the count, 0 for the end, -1 for an error, -2 for a timeout. */
    method RecvBytes() returns (l: int)
      requires Valid()
      modifies this`script, this`len, recvbuf
      ensures Valid() && start + len <= LIMIT
      ensures
        var (a, rest) := Recv(old(script), LIMIT - old(start) - old(len));
        && script == rest && start == old(start)
        && (a.Got? ==> l > 0 && View().held == old(View().held) + a.bytes)
        && (!a.Got? ==> View().held == old(View().held))
        && (a.Closed? <==> l == 0) && (a.Failed? <==> l == -1) && (a.Again? <==> l == -2)
    {
      var (a, rest) := Recv(script, LIMIT - start - len);
      script := rest;
      match a
      case Got(b) =>
        forall j | 0 <= j < |b| {
          recvbuf[start + len + j] := b[j];
        }
        len := len + |b|;
        l := |b|;
      case Again => l := -2;
      case Failed => l := -1;
      case Closed => l := 0;
    }

    /** The line that ends at start + k is handed out; an emptied buffer starts anew. */
    method TakeLine(k: nat) returns (line: seq<int>)
      requires Valid() && k == Find(View().held) < len
      modifies this`start, this`len
      ensures Valid() && (line, View()) == RecvLine(old(View()))
    {
      hide RecvLine, Find, Bytes, Recv;
      ghost var was := View();
      StepTakes(was);
      var l := k + 1;
      line := recvbuf[start..start + l];
      assert line == was.held[..k + 1];
      start := start + l;
      len := len - l;
      assert recvbuf[start..start + len] == was.held[k + 1..];
      if len == 0 {
        start := 0;
      }
    }

    /** recv_line */
    method RecvLineInto() returns (line: seq<int>)
      requires Valid()
      modifies this`start, this`len, this`script, recvbuf
      ensures Valid() && (line, View()) == RecvLine(old(View()))
    {
      hide RecvLine, Bytes, Recv, Find;
      while true
        invariant Valid() && RecvLine(View()) == RecvLine(old(View()))
        decreases |Bytes(script)| + |script|
      {
        if len > 0 {
          var k := FindNewline();
          if k >= 0 {
            line := TakeLine(k);
            return line;
          }
        }
        ghost var was := View();
        StepAsks(was);
        RecvKeepsBytes(script, LIMIT - start - len);
        var l := RecvBytes();
        if l == 0 || l == -1 {
          assert View() == was.(script := script);
          return [];
        }
      }
    }
  }

  // ---------- lines ----------

  predicate OneLine(line: seq<int>) {
    line != [] && Find(line) == |line| - 1
  }

  /** The lines of a text, each with its newline. */
  function LinesOf(s: seq<int>): (r: seq<seq<int>>)
    ensures forall k :: 0 <= k < |r| ==> OneLine(r[k])
  {
    var k := Find(s);
    if k == |s| then []
    else
      FindIn(s, k + 1);
      [s[..k + 1]] + LinesOf(s[k + 1..])
  }

  lemma {:induction false} FindIn(s: seq<int>, n: nat)
    requires Find(s) < n <= |s|
    ensures Find(s[..n]) == Find(s)
  {
    if s[0] != NEWLINE {
      FindIn(s[1..], n - 1);
      assert s[..n][1..] == s[1..][..n - 1];
    }
  }

  lemma {:induction false} FindBefore(s: seq<int>, t: seq<int>)
    requires Find(s) < |s|
    ensures Find(s + t) == Find(s)
  {
    if s[0] != NEWLINE {
      FindBefore(s[1..], t);
      assert (s + t)[1..] == s[1..] + t;
    }
  }

  /** A line taken off the front is the first line. */
  lemma FirstLine(line: seq<int>, rest: seq<int>)
    requires OneLine(line)
    ensures LinesOf(line + rest) == [line] + LinesOf(rest)
  {
    FindBefore(line, rest);
    assert (line + rest)[..|line|] == line && (line + rest)[|line|..] == rest;
  }

  /** Each call keeps the stream: what it returns, what it holds and what is still to come are together
      what was held and to come before; what it returns is nothing or one line. */
  lemma {:induction false} CallKeepsStream(s: State)
    requires Fits(s)
    ensures
      var (line, t) := RecvLine(s);
      line + t.held + Bytes(t.script) == s.held + Bytes(s.script) && (line == [] || OneLine(line))
    decreases |Bytes(s.script)| + |s.script|
  {
    hide Bytes, RecvLine, Find, Recv;
    var k := Find(s.held);
    if k < |s.held| {
      StepTakes(s);
      TakenOff(s.held, k, Bytes(s.script));
    } else {
      var (a, rest) := Recv(s.script, LIMIT - s.start - |s.held|);
      StepAsks(s);
      RecvKeepsBytes(s.script, LIMIT - s.start - |s.held|);
      if a.Got? {
        assert s.held + a.bytes + Bytes(rest) == s.held + (a.bytes + Bytes(rest));
        CallKeepsStream(State(s.start, s.held + a.bytes, rest));
      } else {
        assert [] + Bytes(rest) == Bytes(rest) && [] + s.held == s.held;
        if a.Again? {
          CallKeepsStream(s.(script := rest));
        }
      }
    }
  }

  lemma TakenOff(held: seq<int>, k: nat, more: seq<int>)
    requires k == Find(held) < |held|
    ensures held[..k + 1] + held[k + 1..] + more == held + more && OneLine(held[..k + 1])
  {
    assert held == held[..k + 1] + held[k + 1..];
    FindIn(held, k + 1);
    hide Find;
  }

  lemma Rounds(s: State)
    requires Fits(s)
    ensures RecvLine(s) == if OneRound(s).More? then RecvLine(OneRound(s).s) else (OneRound(s).line, OneRound(s).s)
  {
    hide OneRound, Bytes, Fits;
  }

  /** One round of recv_line that finds a newline. */
  lemma StepTakes(s: State)
    requires Fits(s) && Find(s.held) < |s.held|
    ensures
      var k, held := Find(s.held), s.held[Find(s.held) + 1..];
      RecvLine(s) == (s.held[..k + 1], State(if held == [] then 0 else s.start + k + 1, held, s.script))
  {
    Rounds(s);
    hide RecvLine, Bytes, Find, Recv;
  }

  /** One round that does not. */
  lemma StepAsks(s: State)
    requires Fits(s) && Find(s.held) == |s.held|
    ensures
      var (a, rest) := Recv(s.script, LIMIT - s.start - |s.held|);
      RecvLine(s) ==
        if a.Got? then RecvLine(State(s.start, s.held + a.bytes, rest))
        else if a.Again? then RecvLine(s.(script := rest))
        else ([], s.(script := rest))
  {
    Rounds(s);
    hide RecvLine, Bytes, Find, Recv;
  }

  /** n calls, or fewer when one returns 0. */
  function Calls(s: State, n: nat): (r: (seq<seq<int>>, State))
    requires Fits(s)
    ensures Fits(r.1) && |r.0| <= n
    decreases n
  {
    if n == 0 then ([], s)
    else
      var (line, t) := RecvLine(s);
      if line == [] then ([], t) else ([line] + Calls(t, n - 1).0, Calls(t, n - 1).1)
  }

  /** However the stream is cut, the lines returned are the first lines of the stream, one each and in
      order, and the rest of the stream is still held or still to come. */
  lemma {:induction false} LinesOfTheStream(s: State, n: nat)
    requires Fits(s)
    ensures
      var (lines, t) := Calls(s, n);
      LinesOf(s.held + Bytes(s.script)) == lines + LinesOf(t.held + Bytes(t.script))
    decreases n
  {
    hide RecvLine, Bytes, LinesOf, Find;
    if n > 0 {
      var (line, t) := RecvLine(s);
      CallKeepsStream(s);
      if line == [] {
        assert [] + t.held + Bytes(t.script) == t.held + Bytes(t.script);
        assert [] + LinesOf(t.held + Bytes(t.script)) == LinesOf(t.held + Bytes(t.script));
      } else {
        FirstLine(line, t.held + Bytes(t.script));
        assert line + t.held + Bytes(t.script) == line + (t.held + Bytes(t.script));
        LinesOfTheStream(t, n - 1);
        assert [line] + Calls(t, n - 1).0 + LinesOf(Calls(t, n - 1).1.held + Bytes(Calls(t, n - 1).1.script))
          == [line] + (Calls(t, n - 1).0 + LinesOf(Calls(t, n - 1).1.held + Bytes(Calls(t, n - 1).1.script)));
      }
    } else {
      assert [] + LinesOf(s.held + Bytes(s.script)) == LinesOf(s.held + Bytes(s.script));
    }
  }

  // ---------- the buffer that is full ----------

  /** The connection neither closes nor fails. */
  ghost predicate Healthy(script: seq<Arrival>) {
    forall k :: 0 <= k < |script| ==> script[k].Again? || (script[k].Got? && script[k].bytes != [])
  }

  /** On a healthy connection the next line is read exactly when it has a newline at all and that newline
      falls before the end of the buffer, counted from where the line's first byte lies: not when the
      line is too long, but when it reaches too far back. */
  lemma {:induction false} ReadIffInReach(s: State)
    requires Fits(s) && Healthy(s.script)
    ensures
      var w := s.held + Bytes(s.script);
      RecvLine(s).0 != [] <==> Find(w) < |w| && s.start + Find(w) < LIMIT
    decreases |Bytes(s.script)| + |s.script|
  {
    hide Bytes, RecvLine, Find, Recv;
    var w := s.held + Bytes(s.script);
    if Find(s.held) < |s.held| {
      StepTakes(s);
      FindBefore(s.held, Bytes(s.script));
    } else {
      var room := LIMIT - s.start - |s.held|;
      var (a, rest) := Recv(s.script, room);
      StepAsks(s);
      RecvKeepsBytes(s.script, room);
      RecvHealthy(s.script, room);
      FindBeyond(s.held, Bytes(s.script));
      if a.Got? {
        assert s.held + a.bytes + Bytes(rest) == w;
        ReadIffInReach(State(s.start, s.held + a.bytes, rest));
      } else if a.Again? {
        assert [] + Bytes(rest) == Bytes(rest);
        ReadIffInReach(s.(script := rest));
      }
    }
  }

  lemma RecvHealthy(script: seq<Arrival>, room: nat)
    requires Healthy(script)
    ensures Healthy(Recv(script, room).1) && !Recv(script, room).0.Failed?
    ensures Recv(script, room).0.Closed? ==> room == 0 || Bytes(script) == []
  {
  }

  lemma {:induction false} FindBeyond(s: seq<int>, t: seq<int>)
    requires Find(s) == |s|
    ensures Find(s + t) == |s| + Find(t)
  {
    if s == [] {
      assert s + t == t;
    } else {
      FindBeyond(s[1..], t);
      assert (s + t)[1..] == s[1..] + t;
    }
  }

  /** And then it returns 0 for ever, taking nothing from the connection. */
  lemma StuckForEver(s: State, n: nat)
    requires Fits(s) && Find(s.held) == |s.held| && s.start + |s.held| == LIMIT
    ensures Calls(s, n) == ([], s)
  {
    StepAsks(s);
    hide RecvLine;
  }

  lemma {:induction false} FindPastEnd(line: seq<int>)
    requires forall j :: 0 <= j < |line| ==> line[j] != NEWLINE
    ensures Find(line) == |line|
  {
    if line != [] {
      FindPastEnd(line[1..]);
    }
  }

  /** So a line of two bytes is never read when a long one before it left no room behind the first. */
  lemma ShortLineNeverRead(line: seq<int>, x: int, n: nat)
    requires OneLine(line) && |line| == LIMIT - 1 && x != NEWLINE && n > 0
    ensures
      var s := State(0, [], [Got(line + [x]), Got([NEWLINE])]);
      Calls(s, n).0 == [line] && LinesOf(Bytes(s.script)) == [line, [x, NEWLINE]]
  {
    var more := [Got([NEWLINE])];
    var s, s2 := State(0, [], [Got(line + [x])] + more), State(LIMIT - 1, [x], more);
    LongLineRead(line, x, more);
    FindPastEnd([x]);
    TwoLines(line, x);
    assert s == State(0, [], [Got(line + [x]), Got([NEWLINE])]);
    hide RecvLine, LinesOf, Bytes, Find;
    StuckForEver(s2, n - 1);
  }

  lemma LongLineRead(line: seq<int>, x: int, more: seq<Arrival>)
    requires OneLine(line) && |line| == LIMIT - 1
    ensures RecvLine(State(0, [], [Got(line + [x])] + more)) == (line, State(LIMIT - 1, [x], more))
  {
    var s, s1 := State(0, [], [Got(line + [x])] + more), State(0, line + [x], more);
    FindBefore(line, [x]);
    FindPastEnd([]);
    StepAsks(s);
    StepTakes(s1);
    hide RecvLine, Bytes;
    assert ([Got(line + [x])] + more)[1..] == more;
    assert (line + [x])[..|line|] == line && (line + [x])[|line|..] == [x];
    assert [] + (line + [x]) == line + [x];
  }

  lemma TwoLines(line: seq<int>, x: int)
    requires OneLine(line) && x != NEWLINE
    ensures LinesOf(Bytes([Got(line + [x]), Got([NEWLINE])])) == [line, [x, NEWLINE]]
  {
    var end := [x, NEWLINE];
    assert end[1..] == [NEWLINE] && Find(end) == 1;
    BytesFirst(Got(line + [x]), [Got([NEWLINE])]);
    BytesFirst(Got([NEWLINE]), []);
    assert [Got(line + [x])] + [Got([NEWLINE])] == [Got(line + [x]), Got([NEWLINE])];
    assert [Got([NEWLINE])] + [] == [Got([NEWLINE])];
    assert (line + [x]) + ([NEWLINE] + []) == line + end;
    FirstLine(line, end);
    FirstLine(end, []);
    assert end + [] == end;
  }
}
