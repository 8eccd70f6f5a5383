/** client/inifile.c: what a write leaves alone. Whatever other section and key is looked up, it is found in
    the written text where it was found before, except exactly when the new or changed line answers for it,
    which it does for every name that the written ones begin. */
module IniFrame {
  import opened IniFile
  import opened Wrappers

  // ---------- the parser's answer without the places of the section ----------

  /** Where the value is, going over the sections from i on. */
  function Find(p: string, section: string, key: string, i: nat): (r: Option<(nat, nat)>)
    ensures r.Some? ==> i < r.value.0 <= r.value.1 <= |p|
    decreases |p| - i, 0
  {
    if i >= |p| then None
    else if Header(p, i) then
      var b := ToBrace(p, i + 1);
      if Prefix(p[i + 1..b], section) then FindIn(p, section, key, SkipSpace(p, b + 1)) else Find(p, section, key, b)
    else Find(p, section, key, i + 1)
  }

  /** And from a line of a matching section on. */
  function FindIn(p: string, section: string, key: string, t: nat): (r: Option<(nat, nat)>)
    requires t > 0
    ensures r.Some? ==> t < r.value.0 <= r.value.1 <= |p|
    decreases |p| - t, 1
  {
    match Lines(p, key, t)
    case Key(s, j, e) => Some((j + 1, e))
    case Stop(k) => Find(p, section, key, k)
  }

  function Where(r: Place): Option<(nat, nat)> {
    if r.Found? then Some((r.valueS, r.valueE)) else None
  }

  lemma {:induction false} FindIs(p: string, section: string, key: string, i: nat, sofar: Place)
    requires !sofar.Found?
    ensures Find(p, section, key, i) == Where(Sections(p, section, key, i, sofar))
    decreases |p| - i
  {
    hide Lines, ToBrace, SkipSpace, Prefix, Header;
    if i < |p| {
      if Header(p, i) {
        var b := ToBrace(p, i + 1);
        if Prefix(p[i + 1..b], section) {
          var t := SkipSpace(p, b + 1);
          if Lines(p, key, t).Stop? {
            FindIs(p, section, key, Lines(p, key, t).k, NoKey(i + 1, t));
          }
        } else {
          FindIs(p, section, key, b, sofar);
        }
      } else {
        FindIs(p, section, key, i + 1, sofar);
      }
    }
  }

  // ---------- the same text further on ----------

  /** From a on p reads like q from b on. */
  predicate Tail(p: string, a: nat, q: string, b: nat) {
    a <= |p| && b <= |q| && p[a..] == q[b..]
  }

  lemma TailAt(p: string, a: nat, q: string, b: nat, i: nat)
    requires Tail(p, a, q, b) && a <= i
    ensures i < |p| <==> i - a + b < |q|
    ensures i < |p| ==> p[i] == q[i - a + b]
  {
    if i < |p| {
      assert p[a..][i - a] == q[b..][i - a];
    }
  }

  lemma {:induction false} BraceShift(p: string, a: nat, q: string, b: nat, i: nat)
    requires Tail(p, a, q, b) && a <= i
    ensures ToBrace(q, i - a + b) == ToBrace(p, i) - a + b
    decreases |p| - i
  {
    TailAt(p, a, q, b, i);
    if i < |p| && p[i] != ']' {
      BraceShift(p, a, q, b, i + 1);
    }
  }

  lemma {:induction false} SpaceShift(p: string, a: nat, q: string, b: nat, i: nat)
    requires Tail(p, a, q, b) && a <= i
    ensures SkipSpace(q, i - a + b) == SkipSpace(p, i) - a + b
    decreases |p| - i
  {
    TailAt(p, a, q, b, i);
    if i < |p| && Space(p[i]) {
      SpaceShift(p, a, q, b, i + 1);
    }
  }

  lemma {:induction false} LineShift(p: string, a: nat, q: string, b: nat, i: nat)
    requires Tail(p, a, q, b) && a <= i <= |p|
    ensures i - a + b <= |q| && LineEnd(q, i - a + b) == LineEnd(p, i) - a + b
    decreases |p| - i
  {
    TailAt(p, a, q, b, i);
    if i < |p| && !Newline(p[i]) {
      LineShift(p, a, q, b, i + 1);
    }
  }

  lemma {:induction false} EqualsShift(p: string, a: nat, q: string, b: nat, j: nat, e: nat)
    requires Tail(p, a, q, b) && a <= j <= e <= |p|
    ensures e - a + b <= |q| && Equals(q, j - a + b, e - a + b) == Equals(p, j, e) - a + b
    decreases e - j
  {
    TailAt(p, a, q, b, j);
    if j < e && p[j] != '=' {
      EqualsShift(p, a, q, b, j + 1, e);
    }
  }

  lemma SliceShift(p: string, a: nat, q: string, b: nat, i: nat, j: nat)
    requires Tail(p, a, q, b) && a <= i <= j <= |p|
    ensures j - a + b <= |q| && q[i - a + b..j - a + b] == p[i..j]
  {
    TailAt(p, a, q, b, j);
    forall k | i <= k < j ensures p[k] == q[k - a + b] {
      TailAt(p, a, q, b, k);
    }
  }

  lemma MarkShift(p: string, a: nat, q: string, b: nat, key: string, s: nat, e: nat)
    requires Tail(p, a, q, b) && a <= s <= e <= |p|
    ensures e - a + b <= |q| && KeyMark(q, key, s - a + b, e - a + b) == KeyMark(p, key, s, e) - a + b
  {
    TailAt(p, a, q, b, s);
    EqualsShift(p, a, q, b, s, e);
    SliceShift(p, a, q, b, s, Equals(p, s, e));
    hide Tail, Prefix;
  }

  /** A '[' at a begins a header in both texts or in neither. */
  predicate SameStart(p: string, a: nat, q: string, b: nat) {
    a < |p| && b < |q| && p[a] == '[' ==> (a == 0 || Newline(p[a - 1])) && (b == 0 || Newline(q[b - 1]))
  }

  function Moved(r: Body, a: nat, b: nat): Body
    requires r.Stop? ==> r.k >= a
    requires r.Key? ==> r.s >= a && r.j >= a && r.e >= a
  {
    match r
    case Stop(k) => Stop(k - a + b)
    case Key(s, j, e) => Key(s - a + b, j - a + b, e - a + b)
  }

  lemma StartAt(p: string, a: nat, q: string, b: nat, i: nat)
    requires Tail(p, a, q, b) && SameStart(p, a, q, b) && a <= i < |p|
    ensures i - a + b < |q| && Header(q, i - a + b) == Header(p, i)
    ensures i > 0 && i - a + b > 0 ==>
              ((Newline(p[i - 1]) && p[i] == '[') <==> (Newline(q[i - a + b - 1]) && q[i - a + b] == '['))
  {
    TailAt(p, a, q, b, i);
    if i > a { TailAt(p, a, q, b, i - 1); }
    hide Tail, Newline;
  }

  lemma {:induction false} LinesShift(p: string, a: nat, q: string, b: nat, key: string, i: nat)
    requires Tail(p, a, q, b) && SameStart(p, a, q, b) && a <= i && i > 0 && i - a + b > 0
    ensures Lines(q, key, i - a + b) == Moved(Lines(p, key, i), a, b)
    decreases |p| - i, 1
  {
    TailAt(p, a, q, b, i);
    if i < |p| {
      StartAt(p, a, q, b, i);
      if !(Newline(p[i - 1]) && p[i] == '[') {
        LinesShiftOn(p, a, q, b, key, i);
      }
    }
    hide Tail, SameStart, Newline, KeyMark, LineEnd;
  }

  lemma {:induction false} LinesShiftOn(p: string, a: nat, q: string, b: nat, key: string, i: nat)
    requires Tail(p, a, q, b) && SameStart(p, a, q, b) && a <= i < |p| && i > 0 && 0 < i - a + b < |q|
    requires !(Newline(p[i - 1]) && p[i] == '[') && !(Newline(q[i - a + b - 1]) && q[i - a + b] == '[')
    ensures Lines(q, key, i - a + b) == Moved(Lines(p, key, i), a, b)
    decreases |p| - i, 0
  {
    hide Tail, SameStart, Lines, KeyMark, LineEnd, Newline;
    var i', e := i - a + b, LineEnd(p, i);
    LineShift(p, a, q, b, i);
    MarkShift(p, a, q, b, key, i, e);
    AtLine(p, key, i, e, KeyMark(p, key, i, e));
    AtLine(q, key, i', LineEnd(q, i'), KeyMark(q, key, i', LineEnd(q, i')));
    if KeyMark(p, key, i, e) == e {
      LinesShift(p, a, q, b, key, e + 1);
    }
  }

  function MovedRange(r: Option<(nat, nat)>, a: nat, b: nat): Option<(nat, nat)>
    requires r.Some? ==> r.value.0 >= a && r.value.1 >= a
  {
    if r.None? then None else Some((r.value.0 - a + b, r.value.1 - a + b))
  }

  /** One round at a header whose brace is at b. */
  lemma FindAt(p: string, section: string, key: string, i: nat, b: nat, t: nat)
    requires i < |p| && Header(p, i) && b == ToBrace(p, i + 1) && t == SkipSpace(p, b + 1)
    ensures Find(p, section, key, i) ==
              if Prefix(p[i + 1..b], section) then FindIn(p, section, key, t) else Find(p, section, key, b)
  {
    hide FindIn, Prefix, ToBrace, SkipSpace, Header;
  }

  lemma {:induction false} FindShift(p: string, a: nat, q: string, b: nat, section: string, key: string, i: nat)
    requires Tail(p, a, q, b) && SameStart(p, a, q, b) && a <= i
    ensures Find(q, section, key, i - a + b) == MovedRange(Find(p, section, key, i), a, b)
    decreases |p| - i, 1
  {
    TailAt(p, a, q, b, i);
    if i >= |p| {
      hide Tail, SameStart;
    } else {
      hide Tail, Header, SameStart, Find;
      StartAt(p, a, q, b, i);
      if Header(p, i) {
        FindShiftHeader(p, a, q, b, section, key, i);
      } else {
        FindShift(p, a, q, b, section, key, i + 1);
        FindSkip(p, section, key, i);
        FindSkip(q, section, key, i - a + b);
      }
    }
  }

  lemma FindSkip(p: string, section: string, key: string, i: nat)
    requires i < |p| && !Header(p, i)
    ensures Find(p, section, key, i) == Find(p, section, key, i + 1)
  {
  }

  lemma {:induction false} FindShiftHeader(
      p: string, a: nat, q: string, b: nat, section: string, key: string, i: nat)
    requires Tail(p, a, q, b) && SameStart(p, a, q, b) && a <= i < |p| && Header(p, i)
    requires i - a + b < |q| && Header(q, i - a + b)
    ensures Find(q, section, key, i - a + b) == MovedRange(Find(p, section, key, i), a, b)
    decreases |p| - i, 0
  {
    hide Tail, Prefix, FindIn, Header, ToBrace, SkipSpace, SameStart, Find;
    var c := ToBrace(p, i + 1);
    var t, i' := SkipSpace(p, c + 1), i - a + b;
    BraceShift(p, a, q, b, i + 1);
    SliceShift(p, a, q, b, i + 1, c);
    SpaceShift(p, a, q, b, c + 1);
    FindAt(p, section, key, i, c, t);
    FindAt(q, section, key, i', c - a + b, t - a + b);
    if Prefix(p[i + 1..c], section) {
      FindInShift(p, a, q, b, section, key, t);
    } else {
      FindShift(p, a, q, b, section, key, c);
    }
  }

  lemma {:induction false} FindInShift(p: string, a: nat, q: string, b: nat, section: string, key: string, t: nat)
    requires Tail(p, a, q, b) && SameStart(p, a, q, b) && a <= t && t > 0 && t - a + b > 0
    ensures FindIn(q, section, key, t - a + b) == MovedRange(FindIn(p, section, key, t), a, b)
    decreases |p| - t, 2
  {
    hide Tail, Lines, SameStart, Header;
    LinesShift(p, a, q, b, key, t);
    var r := Lines(p, key, t);
    if r.Stop? {
      TailAt(p, a, q, b, r.k);
      if r.k < |p| {
        hide Find;
        FindShift(p, a, q, b, section, key, r.k);
      }
    }
  }

  // ---------- over a section that is not looked at ----------

  lemma {:induction false} NoHeaders(p: string, section: string, key: string, i: nat, j: nat)
    requires i <= j && forall x :: i <= x < j && x < |p| ==> !Header(p, x)
    ensures Find(p, section, key, i) == Find(p, section, key, j)
    decreases j - i
  {
    hide FindIn, Header;
    if i < j {
      NoHeaders(p, section, key, i + 1, j);
    }
  }

  lemma {:induction false} NoHeadersParse(p: string, section: string, key: string, i: nat, j: nat, sofar: Place)
    requires i <= j && forall x :: i <= x < j && x < |p| ==> !Header(p, x)
    ensures Sections(p, section, key, i, sofar) == Sections(p, section, key, j, sofar)
    decreases j - i
  {
    hide Lines, Header;
    if i < j {
      NoHeadersParse(p, section, key, i + 1, j, sofar);
    }
  }

  /** Where the lines of a section end, or that of the key does. */
  function Ends(r: Body): nat {
    match r
    case Stop(k) => k
    case Key(_, _, e) => e
  }

  lemma LineNoHeader(p: string, t: nat)
    requires 0 < t < |p| && !(Newline(p[t - 1]) && p[t] == '[')
    ensures forall x :: t <= x <= LineEnd(p, t) && x < |p| ==> !Header(p, x)
  {
    var e := LineEnd(p, t);
    forall x | t <= x <= e && x < |p| ensures !Header(p, x) {
      if x > t {
        assert !Newline(p[x - 1]);
      }
    }
  }

  lemma {:induction false} LinesNoHeader(p: string, key: string, t: nat)
    requires t > 0
    ensures t <= Ends(Lines(p, key, t))
    ensures forall x :: t <= x < Ends(Lines(p, key, t)) && x < |p| ==> !Header(p, x)
    decreases |p| - t
  {
    if t < |p| && !(Newline(p[t - 1]) && p[t] == '[') {
      var e := LineEnd(p, t);
      LineNoHeader(p, t);
      AtLine(p, key, t, e, KeyMark(p, key, t, e));
      hide Lines, KeyMark, LineEnd, Header, Newline;
      if KeyMark(p, key, t, e) == e {
        LinesNoHeader(p, key, e + 1);
      }
    }
  }

  /** The lines of a section hold no header, so passing over them ends where reading them does. */
  lemma PassSection(p: string, section: string, key: string, b: nat, other: string)
    requires b < |p| && p[b] == ']'
    ensures Find(p, section, key, b) == Find(p, section, key, Ends(Lines(p, other, SkipSpace(p, b + 1))))
    ensures forall sofar :: Sections(p, section, key, b, sofar)
                            == Sections(p, section, key, Ends(Lines(p, other, SkipSpace(p, b + 1))), sofar)
    ensures b < Ends(Lines(p, other, SkipSpace(p, b + 1)))
  {
    var t := SkipSpace(p, b + 1);
    var end := Ends(Lines(p, other, t));
    LinesNoHeader(p, other, t);
    hide Lines, SkipSpace, Sections, Find;
    NoHeaders(p, section, key, b, end);
    forall sofar ensures Sections(p, section, key, b, sofar) == Sections(p, section, key, end, sofar) {
      NoHeadersParse(p, section, key, b, end, sofar);
    }
  }

  /** The lines of a section do not depend on the key until it is found. */
  lemma {:induction false} StopSame(p: string, key: string, other: string, t: nat)
    requires t > 0 && Lines(p, key, t).Stop?
    ensures
      var r, k := Lines(p, other, t), Lines(p, key, t).k;
      if r.Stop? then r.k == k else r.e < k
    decreases |p| - t
  {
    if t < |p| && !(Newline(p[t - 1]) && p[t] == '[') {
      var e := LineEnd(p, t);
      AtLine(p, key, t, e, KeyMark(p, key, t, e));
      AtLine(p, other, t, e, KeyMark(p, other, t, e));
      hide Lines, KeyMark, LineEnd;
      StopSame(p, key, other, e + 1);
      LinesForward(p, key, e + 1);
    }
  }

  lemma LinesForward(p: string, key: string, t: nat)
    requires t > 0
    ensures Lines(p, key, t).Stop? ==> t <= Lines(p, key, t).k
  {
  }

  /** A line of a section from t to e, and the '=' at j where it answers for the key. */
  predicate Line(p: string, key: string, t: nat, e: nat, j: nat) {
    && 0 < t < |p| && !(Newline(p[t - 1]) && p[t] == '[')
    && e == LineEnd(p, t) && j == KeyMark(p, key, t, e)
  }

  lemma LineIs(p: string, key: string, t: nat, e: nat, j: nat)
    requires Line(p, key, t, e, j)
    ensures 0 < t <= j <= e <= |p| && t < |p|
    ensures Lines(p, key, t) == if j < e then Key(t, j, e) else Lines(p, key, e + 1)
  {
    AtLine(p, key, t, e, j);
    hide Lines, LineEnd, Newline;
  }

  /** One line, read for a key. */
  lemma FindInAt(p: string, section: string, key: string, t: nat, e: nat, j: nat)
    requires Line(p, key, t, e, j)
    ensures 0 < t <= j <= e <= |p| && t < |p|
    ensures FindIn(p, section, key, t) == if j < e then Some((j + 1, e)) else FindIn(p, section, key, e + 1)
  {
    LineIs(p, key, t, e, j);
    hide Lines, Line, Find;
  }

  /** A section with the key starts with a line. */
  lemma LineOf(p: string, key: string, t: nat) returns (e: nat, j: nat)
    requires t > 0 && Lines(p, key, t).Key?
    ensures Line(p, key, t, e, j)
  {
    hide KeyMark, LineEnd, Newline;
    e := LineEnd(p, t);
    j := KeyMark(p, key, t, e);
  }

  lemma KeyBehind(p: string, key: string, t: nat)
    requires t > 0 && Lines(p, key, t).Key?
    ensures t < Lines(p, key, t).j < Lines(p, key, t).e <= |p|
  {
    hide KeyMark, LineEnd, Newline;
  }

  /** The same line, read for another key: it answers at the same '=' or not at all. */
  lemma LineFor(p: string, key: string, t: nat, e: nat, j: nat, other: string) returns (j': nat)
    requires Line(p, key, t, e, j)
    ensures Line(p, other, t, e, j') && (j < e && j' < e ==> j' == j)
  {
    hide Prefix, LineEnd, Newline;
    j' := KeyMark(p, other, t, e);
  }

  /** A line that ends before m reads alike in both texts. */
  lemma LineReadAlike(p: string, q: string, m: nat, key: string, t: nat, e: nat, j: nat)
    requires Agree(p, q, m) && Line(p, key, t, e, j) && e < m
    ensures Line(q, key, t, e, j)
  {
    LineAlike(p, q, m, t);
    assert q[t] == p[t] && q[t - 1] == p[t - 1];
    hide Prefix, Newline, KeyMark, LineEnd;
    MarkAlike(p, q, m, key, t, e);
  }

  /** A key whose whole line lies before m is found in both texts. */
  lemma {:induction false} LineBeforeAlike(p: string, q: string, m: nat, key: string, t: nat)
    requires Agree(p, q, m) && t > 0 && Lines(p, key, t).Key? && Lines(p, key, t).e < m
    ensures Lines(q, key, t) == Lines(p, key, t)
    decreases |p| - t
  {
    KeyBehind(p, key, t);
    hide Lines, Line, Agree;
    var e, j := LineOf(p, key, t);
    LineIs(p, key, t, e, j);
    if j == e {
      KeyBehind(p, key, e + 1);
      LineBeforeAlike(p, q, m, key, e + 1);
    }
    LineReadAlike(p, q, m, key, t, e, j);
    LineIs(q, key, t, e, j);
  }

  // ---------- a changed value ----------

  /** The value at s..e gave way to n other characters of the same line. */
  ghost predicate Changed(p: string, q: string, s: nat, e: nat, n: nat) {
    && 0 < s <= e && Agree(p, q, s) && Tail(p, e, q, s + n) && (e < |p| ==> Newline(p[e]))
    && LineEnd(p, s) == e && LineEnd(q, s) == s + n && p[s - 1] == '='
  }

  /** What is found in the text with the changed value, by what was found before. */
  ghost predicate Framed(f: Option<(nat, nat)>, g: Option<(nat, nat)>, s: nat, e: nat, n: nat) {
    match f
    case None => g == None
    case Some(v) =>
      (v.0 == s && v.1 == e && g == Some((s, s + n)))
      || (v.0 < s && v.1 < s && g == f)
      || (v.0 > e && v.1 >= v.0 && g == Some((v.0 - e + s + n, v.1 - e + s + n)))
  }

  /** Behind the changed line everything is found where it was. */
  lemma FramedBehind(p: string, q: string, s: nat, e: nat, n: nat, section: string, key: string, i: nat)
    requires Changed(p, q, s, e, n) && e <= i
    ensures Framed(Find(p, section, key, i), Find(q, section, key, i - e + s + n), s, e, n)
  {
    hide Find, Tail, Agree, Newline, LineEnd;
    assert SameStart(p, e, q, s + n) by { StartsAlike(p, q, s, e, n); }
    FindShift(p, e, q, s + n, section, key, i);
  }

  lemma FramedLinesBehind(p: string, q: string, s: nat, e: nat, n: nat, section: string, key: string, t: nat)
    requires Changed(p, q, s, e, n) && e < t
    ensures Framed(FindIn(p, section, key, t), FindIn(q, section, key, t - e + s + n), s, e, n)
  {
    hide FindIn, Tail, Agree, Newline, LineEnd;
    assert SameStart(p, e, q, s + n) by { StartsAlike(p, q, s, e, n); }
    FindInShift(p, e, q, s + n, section, key, t);
  }

  lemma StartsAlike(p: string, q: string, s: nat, e: nat, n: nat)
    requires Changed(p, q, s, e, n)
    ensures SameStart(p, e, q, s + n)
  {
    hide Tail, Agree, LineEnd;
  }

  lemma MarkMissed(p: string, q: string, key: string, t: nat, e: nat, j: nat, e': nat)
    requires t <= j < e <= |p| && j < e' <= |q| && Agree(p, q, j + 1) && Equals(p, t, e) == j
    requires KeyMark(p, key, t, e) == e
    ensures KeyMark(q, key, t, e') == e'
  {
    EqualsAlike(p, q, j + 1, t, e, e');
    assert p[t..j] == q[t..j];
    hide Prefix, Equals;
  }

  /** The changed line ends at e in the one text and at s + n in the other. */
  lemma OwnEnds(p: string, q: string, s: nat, e: nat, n: nat, t: nat)
    requires Changed(p, q, s, e, n) && 0 < t < s && LineEnd(p, t) >= s
    ensures LineEnd(p, t) == e <= |p| && t < |q| && LineEnd(q, t) == s + n <= |q|
    ensures q[t] == p[t] && q[t - 1] == p[t - 1] && Agree(p, q, s)
  {
    hide Tail, LineEnd, Newline;
    LineUnbroken(p, s, t);
    LineGoesOn(p, t, s);
    AgreeLine(p, q, s, t);
    LineGoesOn(q, t, s);
  }

  lemma LineUnbroken(p: string, s: nat, t: nat)
    requires t <= s <= |p| && LineEnd(p, t) >= s
    ensures forall k :: t <= k < s ==> !Newline(p[k])
  {
  }

  lemma AgreeLine(p: string, q: string, s: nat, t: nat)
    requires Agree(p, q, s) && t <= s && LineEnd(p, t) >= s
    ensures forall k :: t <= k < s ==> !Newline(q[k])
  {
  }

  lemma OwnMark(p: string, q: string, s: nat, e: nat, n: nat, key: string, t: nat)
    requires Agree(p, q, s) && t < s <= e <= |p| && s + n <= |q| && Equals(p, t, e) == s - 1
    ensures KeyMark(q, key, t, s + n) == if KeyMark(p, key, t, e) < e then s - 1 else s + n
    ensures KeyMark(p, key, t, e) < e ==> KeyMark(p, key, t, e) == s - 1
  {
    if KeyMark(p, key, t, e) < e {
      hide Prefix;
      KeyMarkAlike(p, q, s, key, t, e, s + n);
    } else {
      hide KeyMark, Prefix;
      MarkMissed(p, q, key, t, e, s - 1, s + n);
    }
  }

  /** The changed line, read for another key in both texts. */
  lemma OwnLine(p: string, q: string, s: nat, e: nat, n: nat, key: string, t: nat, e0: nat, key': string)
    returns (j: nat, j': nat)
    requires Changed(p, q, s, e, n) && Line(p, key, t, e0, s - 1) && s <= e0
    ensures e0 == e && Line(p, key', t, e, j) && Line(q, key', t, s + n, j')
    ensures if j < e then j == j' == s - 1 else j' == s + n
  {
    assert Equals(p, t, e0) == s - 1 && t < s;
    hide Tail, Prefix, LineEnd, KeyMark, Equals, Newline, Agree;
    OwnEnds(p, q, s, e, n, t);
    OwnMark(p, q, s, e, n, key', t);
    j, j' := KeyMark(p, key', t, e), KeyMark(q, key', t, s + n);
  }

  /** The changed line itself: it answers for the other key as before, with the new value. */
  lemma FramedHere(
      p: string, q: string, s: nat, e: nat, n: nat, key: string, t: nat, e0: nat, section': string, key': string)
    requires Changed(p, q, s, e, n) && Line(p, key, t, e0, s - 1) && s <= e0
    ensures Framed(FindIn(p, section', key', t), FindIn(q, section', key', t), s, e, n)
  {
    hide Line, FindIn, Framed;
    var j, j' := OwnLine(p, q, s, e, n, key, t, e0, key');
    hide Changed;
    FindInAt(p, section', key', t, e, j);
    FindInAt(q, section', key', t, s + n, j');
    if j < e {
      FramedFound(s, e, n);
    } else {
      FramedLinesBehind(p, q, s, e, n, section', key', e + 1);
    }
  }

  lemma FramedEarlier(v: nat, w: nat, s: nat, e: nat, n: nat)
    requires v < s && w < s
    ensures Framed(Some((v, w)), Some((v, w)), s, e, n)
  {
  }

  lemma FramedFound(s: nat, e: nat, n: nat)
    ensures Framed(Some((s, e)), Some((s, s + n)), s, e, n)
  {
  }

  /** The lines up to the changed one, read for another key. */
  lemma {:induction false} FramedLines(
      p: string, q: string, s: nat, e: nat, n: nat, key: string, t: nat, section': string, key': string)
    requires Changed(p, q, s, e, n) && 0 < t < |p| && Lines(p, key, t).Key? && Lines(p, key, t).j + 1 == s
    ensures Framed(FindIn(p, section', key', t), FindIn(q, section', key', t), s, e, n)
    decreases |p| - t, 1
  {
    hide Line, FindIn, Framed, Changed, Lines;
    var c, j := LineOf(p, key, t);
    LineIs(p, key, t, c, j);
    if j < c {
      FramedHere(p, q, s, e, n, key, t, c, section', key');
    } else {
      FramedLater(p, q, s, e, n, key, t, c, section', key');
    }
  }

  lemma ChangedAgrees(p: string, q: string, s: nat, e: nat, n: nat)
    requires Changed(p, q, s, e, n)
    ensures Agree(p, q, s)
  {
  }

  lemma {:induction false} FramedLater(
      p: string, q: string, s: nat, e: nat, n: nat, key: string, t: nat, c: nat, section': string, key': string)
    requires Changed(p, q, s, e, n) && Line(p, key, t, c, c) && 0 < t <= c < |p|
    requires Lines(p, key, c + 1).Key? && Lines(p, key, c + 1).j + 1 == s
    ensures Framed(FindIn(p, section', key', t), FindIn(q, section', key', t), s, e, n)
    decreases |p| - t, 0
  {
    hide Line, FindIn, Framed, Changed, Agree, Lines;
    KeyBehind(p, key, c + 1);
    ChangedAgrees(p, q, s, e, n);
    var j := LineFor(p, key, t, c, c, key');
    FramedLines(p, q, s, e, n, key, c + 1, section', key');
    FramedLine(p, q, s, e, n, t, c, j, section', key');
  }

  /** A line in front of the changed one. */
  lemma FramedLine(
      p: string, q: string, s: nat, e: nat, n: nat, t: nat, c: nat, j: nat, section': string, key': string)
    requires Agree(p, q, s) && Line(p, key', t, c, j) && c < s
    requires j == c ==> Framed(FindIn(p, section', key', c + 1), FindIn(q, section', key', c + 1), s, e, n)
    ensures Framed(FindIn(p, section', key', t), FindIn(q, section', key', t), s, e, n)
  {
    hide Line, FindIn, Framed, Agree, LineEnd, KeyMark;
    LineReadAlike(p, q, s, key', t, c, j);
    FindInAt(p, section', key', t, c, j);
    FindInAt(q, section', key', t, c, j);
    if j < c {
      FramedEarlier(j + 1, c, s, e, n);
    }
  }

  /** A place that the lines behind a header are known to stop before. */
  lemma BlanksEnd(p: string, b: nat, m: nat)
    requires b + 1 < m <= |p| && !Space(p[m - 1])
    ensures SkipSpace(p, b + 1) < m
  {
  }

  /** A section of the other name, read before the changed line: found there, or nothing up to a header. */
  lemma FramedBefore(p: string, q: string, s: nat, e: nat, n: nat, t: nat, section': string, key': string)
    requires Changed(p, q, s, e, n) && t > 0 && Ends(Lines(p, key', t)) < s
    requires Lines(p, key', t).Stop? ==>
               var k := Lines(p, key', t).k; Framed(Find(p, section', key', k), Find(q, section', key', k), s, e, n)
    ensures Framed(FindIn(p, section', key', t), FindIn(q, section', key', t), s, e, n)
  {
    hide Lines, Find, Tail;
    if Lines(p, key', t).Stop? {
      StopAlike(p, q, s, key', t);
    } else {
      LineBeforeAlike(p, q, s, key', t);
    }
  }

  lemma {:induction false} FramedFrom(
      p: string, q: string, s: nat, e: nat, n: nat, section: string, key: string, i: nat, sofar: Place,
      section': string, key': string)
    requires Changed(p, q, s, e, n) && !sofar.Found?
    requires
      var r := Sections(p, section, key, i, sofar);
      r.Found? && r.valueS == s
    ensures Framed(Find(p, section', key', i), Find(q, section', key', i), s, e, n)
    decreases |p| - i, 1
  {
    SectionsAhead(p, section, key, i, sofar);
    AgreeAt(p, q, s, i);
    hide Changed, Framed, Header, Lines, ToBrace, SkipSpace, Prefix, Find;
    if Header(p, i) {
      FramedHeader(p, q, s, e, n, section, key, i, sofar, section', key');
    } else {
      FramedFrom(p, q, s, e, n, section, key, i + 1, sofar, section', key');
      FindSkip(p, section', key', i);
      FindSkip(q, section', key', i);
    }
  }

  lemma {:induction false} FramedHeader(
      p: string, q: string, s: nat, e: nat, n: nat, section: string, key: string, i: nat, sofar: Place,
      section': string, key': string)
    requires Changed(p, q, s, e, n) && !sofar.Found? && i < |p| && Header(p, i)
    requires
      var r := Sections(p, section, key, i, sofar);
      r.Found? && r.valueS == s
    ensures Framed(Find(p, section', key', i), Find(q, section', key', i), s, e, n)
    decreases |p| - i, 0
  {
    var b := ToBrace(p, i + 1);
    var t := SkipSpace(p, b + 1);
    AtHeader(p, section, key, i, sofar, b, t);
    BeforeValue(p, section, key, i, sofar, b, t);
    BlanksEnd(p, b, s);
    hide Framed, Sections, Lines, ToBrace, SkipSpace, Prefix, Find, FindIn, Newline, LineEnd, Tail, Header, Space;
    HeaderAlike(p, q, s, i);
    SpaceAlike(p, q, s, b + 1);
    FindAt(p, section', key', i, b, t);
    FindAt(q, section', key', i, b, t);
    if !Prefix(p[i + 1..b], section) {
      FramedOther(p, q, s, e, n, section, key, b, sofar, section', key');
    } else if Lines(p, key, t).Stop? {
      FramedPass(p, q, s, e, n, section, key, b, NoKey(i + 1, t), section', key');
    } else {
      FramedLast(p, q, s, e, n, key, b, section', key');
    }
  }

  /** The section is another one than the written key's. */
  lemma {:induction false} FramedOther(
      p: string, q: string, s: nat, e: nat, n: nat, section: string, key: string, b: nat, sofar: Place,
      section': string, key': string)
    requires Changed(p, q, s, e, n) && !sofar.Found? && b < |p| && p[b] == ']'
    requires
      var r := Sections(p, section, key, b, sofar);
      r.Found? && r.valueS == s
    ensures Framed(Find(p, section', key', b), Find(q, section', key', b), s, e, n)
    ensures
      var t := SkipSpace(p, b + 1);
      Framed(FindIn(p, section', key', t), FindIn(q, section', key', t), s, e, n)
    decreases |p| - b, 2
  {
    hide Changed, Framed, Sections, Lines, ToBrace, SkipSpace, Prefix, Find, FindIn, Header, Space;
    FramedFrom(p, q, s, e, n, section, key, b, sofar, section', key');
    var t := SkipSpace(p, b + 1);
    var end := Ends(Lines(p, key', t));
    PassSection(p, section, key, b, key');
    assert Sections(p, section, key, b, sofar) == Sections(p, section, key, end, sofar);
    SectionsAhead(p, section, key, end, sofar);
    if Lines(p, key', t).Stop? {
      FramedFrom(p, q, s, e, n, section, key, end, sofar, section', key');
    }
    FramedBefore(p, q, s, e, n, t, section', key');
  }

  /** The section is one of the written key's name, but does not hold it. */
  lemma {:induction false} FramedPass(
      p: string, q: string, s: nat, e: nat, n: nat, section: string, key: string, b: nat, sofar: Place,
      section': string, key': string)
    requires Changed(p, q, s, e, n) && !sofar.Found? && b < |p| && p[b] == ']'
    requires SkipSpace(q, b + 1) == SkipSpace(p, b + 1) && b < |q| && q[b] == ']'
    requires
      var k := Lines(p, key, SkipSpace(p, b + 1));
      k.Stop? && var r := Sections(p, section, key, k.k, sofar); r.Found? && r.valueS == s
    ensures Framed(Find(p, section', key', b), Find(q, section', key', b), s, e, n)
    ensures
      var t := SkipSpace(p, b + 1);
      Framed(FindIn(p, section', key', t), FindIn(q, section', key', t), s, e, n)
    decreases |p| - b, 2
  {
    hide Framed, Sections, Lines, ToBrace, SkipSpace, Prefix, Find, FindIn, Header, Space, Tail, LineEnd;
    var t := SkipSpace(p, b + 1);
    var k := Lines(p, key, t).k;
    SectionsAhead(p, section, key, k, sofar);
    PassSection(p, section', key', b, key);
    FramedFrom(p, q, s, e, n, section, key, k, sofar, section', key');
    StopSame(p, key, key', t);
    FramedBefore(p, q, s, e, n, t, section', key');
    StopAlike(p, q, s, key, t);
    PassSection(q, section', key', b, key);
  }

  /** The section that holds the written key. */
  lemma FramedLast(
      p: string, q: string, s: nat, e: nat, n: nat, key: string, b: nat, section': string, key': string)
    requires Changed(p, q, s, e, n) && b < |p| && p[b] == ']'
    requires SkipSpace(q, b + 1) == SkipSpace(p, b + 1) && b < |q| && q[b] == ']'
    requires
      var r := Lines(p, key, SkipSpace(p, b + 1));
      r.Key? && r.j + 1 == s
    ensures Framed(Find(p, section', key', b), Find(q, section', key', b), s, e, n)
    ensures
      var t := SkipSpace(p, b + 1);
      Framed(FindIn(p, section', key', t), FindIn(q, section', key', t), s, e, n)
  {
    hide Framed, Lines, ToBrace, SkipSpace, Prefix, Find, FindIn, Header, Space, Tail;
    var t := SkipSpace(p, b + 1);
    KeyEndsLine(p, key, t);
    FramedLines(p, q, s, e, n, key, t, section', key');
    KeyAlike(p, q, s, key, t);
    PassSection(p, section', key', b, key);
    PassSection(q, section', key', b, key);
    FramedBehind(p, q, s, e, n, section', key', e);
  }

  lemma {:induction false} KeyEndsLine(p: string, key: string, t: nat)
    requires t > 0 && Lines(p, key, t).Key?
    ensures 0 < Lines(p, key, t).j < |p| && p[Lines(p, key, t).j] == '='
    ensures Lines(p, key, t).e == LineEnd(p, Lines(p, key, t).j + 1)
    decreases |p| - t
  {
    hide Lines, Line;
    var c, j := LineOf(p, key, t);
    LineIs(p, key, t, c, j);
    if j < c {
      OneLineEnd(p, key, t, c, j);
    } else {
      KeyEndsLine(p, key, c + 1);
    }
  }

  lemma OneLineEnd(p: string, key: string, t: nat, c: nat, j: nat)
    requires Line(p, key, t, c, j) && j < c
    ensures c <= |p| && p[j] == '=' && LineEnd(p, j + 1) == c
  {
    hide Prefix, Newline;
    LineUnbroken(p, j + 1, t);
    LineGoesOn(p, t, j + 1);
  }

  lemma BeforeValue(p: string, section: string, key: string, i: nat, sofar: Place, b: nat, t: nat)
    requires i < |p| && Header(p, i) && !sofar.Found? && b == ToBrace(p, i + 1) && t == SkipSpace(p, b + 1)
    requires Sections(p, section, key, i, sofar).Found?
    ensures i < b && b + 1 < Sections(p, section, key, i, sofar).valueS <= |p|
  {
    AtHeader(p, section, key, i, sofar, b, t);
    hide Sections, ToBrace, SkipSpace, Prefix, Header, Lines;
    if Prefix(p[i + 1..b], section) {
      if Lines(p, key, t).Stop? {
        SectionsAhead(p, section, key, Lines(p, key, t).k, NoKey(i + 1, t));
      }
    } else {
      SectionsAhead(p, section, key, b, sofar);
    }
  }

  // ---------- a new line ----------

  /** n characters were put in at m: "key=", the value and a newline. */
  ghost predicate Grown(p: string, q: string, m: nat, n: nat, key: string) {
    && 0 < m <= |p| && Inserted(p, q, key, m) && Tail(p, m, q, m + n) && PlainKey(key) && n >= |key| + 2
    && LineEnd(q, m) == m + n - 1 && q[m + n - 1] == '\n' && SameStart(p, m, q, m + n)
  }

  /** What is found in the grown text; `other` says that the new line answers for the other name. */
  ghost predicate Regrown(f: Option<(nat, nat)>, g: Option<(nat, nat)>, m: nat, n: nat, size: nat, other: bool) {
    if other && !(f.Some? && f.value.0 < m) then g == Some((m + size + 1, m + n - 1))
    else
      match f
      case None => g == None
      case Some(v) =>
        (v.0 < m && v.1 < m && g == f) || (v.0 > m && v.1 >= v.0 && g == Some((v.0 + n, v.1 + n)))
  }

  /** The new line, read for another key. */
  lemma NewLine(p: string, q: string, m: nat, n: nat, key: string, key': string)
    requires Grown(p, q, m, n, key)
    ensures m < |q| && q[m] != '['
    ensures KeyMark(q, key', m, m + n - 1) == if Prefix(key, key') then m + |key| else m + n - 1
  {
    forall k | m <= k < m + |key| ensures q[k] == key[k - m] {
      assert q[m..m + |key|][k - m] == key[k - m];
    }
    NoEquals(q, m, m + |key|, m + n - 1);
    hide Tail, SameStart, LineEnd;
  }

  lemma {:induction false} LineHasNone(q: string, m: nat, e: nat)
    requires m <= |q| && e == LineEnd(q, m)
    ensures forall x :: m < x <= e && x < |q| ==> !Header(q, x)
  {
    forall x | m < x <= e && x < |q| ensures !Header(q, x) {
      assert !Newline(q[x - 1]);
    }
  }

  lemma GrownAgrees(p: string, q: string, m: nat, n: nat, key: string)
    requires Grown(p, q, m, n, key)
    ensures Agree(p, q, m)
  {
  }

  lemma NotInBlanks(p: string, m: nat, b: nat)
    requires b < m <= |p| && p[b] == ']' && SkipSpace(p, b + 1) == m
    ensures forall x :: b <= x < m ==> p[x] != '['
  {
  }

  /** The section the line was put into: its blanks end at the new line. */
  lemma BlanksKept(p: string, q: string, m: nat, n: nat, key: string, b: nat)
    requires Grown(p, q, m, n, key) && b < m && p[b] == ']' && SkipSpace(p, b + 1) == m
    ensures SkipSpace(q, b + 1) == m && b < |q|
    ensures forall x :: b <= x < m ==> !Header(p, x)
    ensures forall x :: b <= x < m + n && x < |q| ==> !Header(q, x)
  {
    NewLine(p, q, m, n, key, key);
    assert q[m] == key[0] by { assert q[m..m + |key|][0] == key[0]; }
    assert !Space(q[m]);
    NotInBlanks(p, m, b);
    hide Tail, SameStart, KeyMark, LineEnd, Prefix, Newline, Space, PlainKey, SkipSpace;
    LineHasNone(q, m, m + n - 1);
    GrownAgrees(p, q, m, n, key);
    SpaceEndsAt(p, q, m, b + 1);
    forall x | b <= x < m + n && x < |q| ensures !Header(q, x) {
      if x < m {
        assert q[x] == p[x];
      }
    }
  }

  lemma RegrownPass(p: string, q: string, m: nat, n: nat, key: string, b: nat, section': string, key': string)
    requires Grown(p, q, m, n, key) && b < m && p[b] == ']' && SkipSpace(p, b + 1) == m
    ensures Regrown(Find(p, section', key', b), Find(q, section', key', b), m, n, |key|, false)
  {
    BlanksKept(p, q, m, n, key, b);
    hide Find, Tail, SameStart, SkipSpace, LineEnd, Header, PlainKey, Inserted;
    FindShift(p, m, q, m + n, section', key', m);
    NoHeaders(p, section', key', b, m);
    NoHeaders(q, section', key', b, m + n);
  }

  lemma RegrownLines(p: string, q: string, m: nat, n: nat, key: string, section': string, key': string)
    requires Grown(p, q, m, n, key)
    ensures Regrown(FindIn(p, section', key', m), FindIn(q, section', key', m), m, n, |key|, Prefix(key, key'))
  {
    hide FindIn, Tail, SameStart, Lines, KeyMark, LineEnd, Prefix, PlainKey, Inserted;
    NewLine(p, q, m, n, key, key');
    FindInShift(p, m, q, m + n, section', key', m);
    FindInAt(q, section', key', m, m + n - 1, KeyMark(q, key', m, m + n - 1));
  }

  /** A section of the other name, read before the new line. */
  lemma RegrownBefore(
      p: string, q: string, m: nat, n: nat, size: nat, other: bool, t: nat, section': string, key': string)
    requires Agree(p, q, m) && t > 0 && Ends(Lines(p, key', t)) < m
    requires Lines(p, key', t).Stop? ==>
               var k := Lines(p, key', t).k;
               Regrown(Find(p, section', key', k), Find(q, section', key', k), m, n, size, other)
    ensures Regrown(FindIn(p, section', key', t), FindIn(q, section', key', t), m, n, size, other)
  {
    hide Lines, Find;
    if Lines(p, key', t).Stop? {
      StopAlike(p, q, m, key', t);
    } else {
      LineBeforeAlike(p, q, m, key', t);
    }
  }

  /** The parser's last matching section is the one at m, and lies ahead. */
  ghost predicate LastAt(r: Place, sofar: Place, m: nat) {
    r.NoKey? && r.secE == m && r != sofar
  }

  /** Whether the new line answers for the other name: its header and its key both begin the other's. */
  predicate Answers(p: string, r: Place, key: string, section': string, key': string) {
    r.NoKey? && 0 < r.secS <= |p| && ToBrace(p, r.secS) <= |p|
    && Prefix(p[r.secS..ToBrace(p, r.secS)], section') && Prefix(key, key')
  }

  lemma {:induction false} RegrownFrom(
      p: string, q: string, m: nat, n: nat, section: string, key: string, i: nat, sofar: Place,
      section': string, key': string)
    requires Grown(p, q, m, n, key) && !sofar.Found? && (sofar.NoKey? ==> sofar.secS <= i)
    requires LastAt(Sections(p, section, key, i, sofar), sofar, m)
    ensures
      var other := Answers(p, Sections(p, section, key, i, sofar), key, section', key');
      Regrown(Find(p, section', key', i), Find(q, section', key', i), m, n, |key|, other)
    decreases |p| - i, 1
  {
    SectionsAhead(p, section, key, i, sofar);
    AgreeAt(p, q, m, i);
    hide Regrown, Header, Lines, ToBrace, SkipSpace, Prefix, Find, Answers, Tail, SameStart, LineEnd, PlainKey, Agree;
    if Header(p, i) {
      RegrownHeader(p, q, m, n, section, key, i, sofar, section', key');
    } else {
      RegrownFrom(p, q, m, n, section, key, i + 1, sofar, section', key');
      FindSkip(p, section', key', i);
      FindSkip(q, section', key', i);
    }
  }

  lemma {:induction false} RegrownHeader(
      p: string, q: string, m: nat, n: nat, section: string, key: string, i: nat, sofar: Place,
      section': string, key': string)
    requires Grown(p, q, m, n, key) && !sofar.Found? && (sofar.NoKey? ==> sofar.secS <= i)
    requires LastAt(Sections(p, section, key, i, sofar), sofar, m) && i < |p| && Header(p, i)
    ensures
      var other := Answers(p, Sections(p, section, key, i, sofar), key, section', key');
      Regrown(Find(p, section', key', i), Find(q, section', key', i), m, n, |key|, other)
    decreases |p| - i, 0
  {
    var b := ToBrace(p, i + 1);
    var t := SkipSpace(p, b + 1);
    BeforeLine(p, section, key, i, sofar, b, t, m);
    hide Regrown, Sections, Lines, ToBrace, SkipSpace, Prefix, Find, FindIn, Header, Answers, LastAt;
    HeaderAlike(p, q, m, i) by { GrownAgrees(p, q, m, n, key); }
    hide Grown;
    FindAt(p, section', key', i, b, t);
    FindAt(q, section', key', i, b, SkipSpace(q, b + 1));
    if !Prefix(p[i + 1..b], section) {
      RegrownOther(p, q, m, n, section, key, b, sofar, section', key');
    } else if t == m {
      AnswersHere(p, i, b, m, key, section', key');
      RegrownLast(p, q, m, n, section, key, i, b, section', key');
    } else {
      RegrownPassOn(p, q, m, n, section, key, b, NoKey(i + 1, t), section', key');
    }
  }

  /** The section is another one than the written key's. */
  lemma {:induction false} RegrownOther(
      p: string, q: string, m: nat, n: nat, section: string, key: string, b: nat, sofar: Place,
      section': string, key': string)
    requires Grown(p, q, m, n, key) && !sofar.Found? && (sofar.NoKey? ==> sofar.secS <= b) && b < |p| && p[b] == ']'
    requires LastAt(Sections(p, section, key, b, sofar), sofar, m)
    ensures
      var other, t := Answers(p, Sections(p, section, key, b, sofar), key, section', key'), SkipSpace(p, b + 1);
      && SkipSpace(q, b + 1) == t
      && Regrown(Find(p, section', key', b), Find(q, section', key', b), m, n, |key|, other)
      && Regrown(FindIn(p, section', key', t), FindIn(q, section', key', t), m, n, |key|, other)
    decreases |p| - b, 2
  {
    hide Regrown, Sections, Lines, ToBrace, SkipSpace, Prefix, Find, FindIn, Header, Space, Answers, Inserted, Tail;
    assert Agree(p, q, m) by { GrownAgrees(p, q, m, n, key); }
    RegrownFrom(p, q, m, n, section, key, b, sofar, section', key');
    var t := SkipSpace(p, b + 1);
    var end := Ends(Lines(p, key', t));
    PassSection(p, section, key, b, key');
    assert Sections(p, section, key, b, sofar) == Sections(p, section, key, end, sofar);
    SectionsAhead(p, section, key, end, sofar);
    SpaceAlike(p, q, m, b + 1);
    if Lines(p, key', t).Stop? {
      RegrownFrom(p, q, m, n, section, key, end, sofar, section', key');
    }
    var other := Answers(p, Sections(p, section, key, b, sofar), key, section', key');
    RegrownBefore(p, q, m, n, |key|, other, t, section', key');
  }

  /** The section is one of the written key's name, but not the last. */
  lemma {:induction false} RegrownPassOn(
      p: string, q: string, m: nat, n: nat, section: string, key: string, b: nat, sofar: Place,
      section': string, key': string)
    requires Grown(p, q, m, n, key) && sofar.NoKey? && sofar.secS <= b < |p| && p[b] == ']' && b < |q| && q[b] == ']'
    requires
      var r := Lines(p, key, SkipSpace(p, b + 1));
      r.Stop? && LastAt(Sections(p, section, key, r.k, sofar), sofar, m)
    ensures
      var t := SkipSpace(p, b + 1);
      var other := Answers(p, Sections(p, section, key, Lines(p, key, t).k, sofar), key, section', key');
      && SkipSpace(q, b + 1) == t
      && Regrown(Find(p, section', key', b), Find(q, section', key', b), m, n, |key|, other)
      && Regrown(FindIn(p, section', key', t), FindIn(q, section', key', t), m, n, |key|, other)
    decreases |p| - b, 2
  {
    hide Regrown, Sections, Lines, ToBrace, SkipSpace, Prefix, Find, FindIn, Header, Space, Answers, Inserted, Tail;
    assert Agree(p, q, m) by { GrownAgrees(p, q, m, n, key); }
    var t := SkipSpace(p, b + 1);
    var k := Lines(p, key, t).k;
    SectionsAhead(p, section, key, k, sofar);
    PassSection(p, section', key', b, key);
    SpaceAlike(p, q, m, b + 1);
    StopAlike(p, q, m, key, t);
    PassSection(q, section', key', b, key);
    RegrownFrom(p, q, m, n, section, key, k, sofar, section', key');
    StopSame(p, key, key', t);
    var other := Answers(p, Sections(p, section, key, k, sofar), key, section', key');
    RegrownBefore(p, q, m, n, |key|, other, t, section', key');
  }

  lemma AnswersHere(p: string, i: nat, b: nat, m: nat, key: string, section': string, key': string)
    requires i < b < |p| && b == ToBrace(p, i + 1)
    ensures Answers(p, NoKey(i + 1, m), key, section', key') <==> Prefix(p[i + 1..b], section') && Prefix(key, key')
  {
  }

  /** The section the line was put into, seen from its header. */
  lemma RegrownLast(
      p: string, q: string, m: nat, n: nat, section: string, key: string, i: nat, b: nat,
      section': string, key': string)
    requires Grown(p, q, m, n, key) && i < b < m && p[b] == ']' && b == ToBrace(p, i + 1)
    requires SkipSpace(p, b + 1) == m
    ensures SkipSpace(q, b + 1) == m
    ensures
      var f := if Prefix(p[i + 1..b], section') then FindIn(p, section', key', m) else Find(p, section', key', b);
      var g := if Prefix(p[i + 1..b], section') then FindIn(q, section', key', m) else Find(q, section', key', b);
      Regrown(f, g, m, n, |key|, Prefix(p[i + 1..b], section') && Prefix(key, key'))
  {
    hide Regrown, ToBrace, SkipSpace, Prefix, Find, FindIn, Header, Inserted, Tail, SameStart;
    BlanksKept(p, q, m, n, key, b);
    RegrownPass(p, q, m, n, key, b, section', key');
    RegrownLines(p, q, m, n, key, section', key');
  }

  lemma BeforeLine(
      p: string, section: string, key: string, i: nat, sofar: Place, b: nat, t: nat, m: nat)
    requires i < |p| && Header(p, i) && !sofar.Found? && b == ToBrace(p, i + 1) && t == SkipSpace(p, b + 1)
    requires (sofar.NoKey? ==> sofar.secS <= i) && LastAt(Sections(p, section, key, i, sofar), sofar, m) && m <= |p|
    ensures i < b < m
    ensures !Prefix(p[i + 1..b], section) ==>
              Sections(p, section, key, i, sofar) == Sections(p, section, key, b, sofar)
    ensures Prefix(p[i + 1..b], section) ==>
              var r := Lines(p, key, t);
              && r.Stop? && Sections(p, section, key, i, sofar) == Sections(p, section, key, r.k, NoKey(i + 1, t))
              && if t == m then Sections(p, section, key, i, sofar) == NoKey(i + 1, m)
                 else LastAt(Sections(p, section, key, r.k, NoKey(i + 1, t)), NoKey(i + 1, t), m)
  {
    AtHeader(p, section, key, i, sofar, b, t);
    hide Sections, ToBrace, SkipSpace, Prefix, Header, Lines;
    if Prefix(p[i + 1..b], section) {
      if Lines(p, key, t).Stop? {
        SectionsAhead(p, section, key, Lines(p, key, t).k, NoKey(i + 1, t));
      }
    } else {
      SectionsAhead(p, section, key, b, sofar);
    }
  }

  // ---------- a new section ----------

  /** q is p, a newline, and at k0 "[section]", a newline, "key=", the value and a newline. */
  ghost predicate Extended(p: string, q: string, section: string, key: string, n: nat) {
    var k := |p| + 1 + |section| + 3;
    && p != "" && |p| < |q| && Agree(p, q, |p|) && q[|p|] == '\n' && NewAt(q, section, key, |p| + 1)
    && PlainKey(key) && ']' !in section && OneLine(section)
    && |q| == k + |key| + 1 + n + 1 && LineEnd(q, k) == |q| - 1
  }

  /** What is found from the new header on. */
  function NewRange(section: string, key: string, i: nat, n: nat, section': string, key': string): Option<(nat, nat)> {
    var v := i + |section| + 3 + |key| + 1;
    if Prefix(section, section') && Prefix(key, key') then Some((v, v + n)) else None
  }

  lemma NewKeyLine(q: string, section: string, key: string, k: nat, n: nat, section': string, key': string)
    requires PlainKey(key) && 0 < k && k + |key| < |q| && q[k..k + |key|] == key && q[k + |key|] == '='
    requires |q| == k + |key| + 1 + n + 1 && LineEnd(q, k) == |q| - 1
    ensures FindIn(q, section', key', k) == if Prefix(key, key') then Some((k + |key| + 1, |q| - 1)) else None
    ensures q[k] != '[' && !Space(q[k])
  {
    forall x | k <= x < k + |key| ensures q[x] == key[x - k] {
      assert q[k..k + |key|][x - k] == key[x - k];
    }
    NoEquals(q, k, k + |key|, |q| - 1);
    hide Lines, Prefix, Find;
    FindInAt(q, section', key', k, |q| - 1, KeyMark(q, key', k, |q| - 1));
    NothingLeft(q, section', key');
  }

  lemma NothingLeft(q: string, section: string, key: string)
    requires q != ""
    ensures FindIn(q, section, key, |q|) == None
  {
  }

  lemma FromNewHeader(q: string, section: string, key: string, i: nat, n: nat, section': string, key': string)
    requires PlainKey(key) && ']' !in section && NewAt(q, section, key, i) && (i == 0 || Newline(q[i - 1]))
    requires
      var k := i + |section| + 3;
      |q| == k + |key| + 1 + n + 1 && LineEnd(q, k) == |q| - 1
    ensures Find(q, section', key', i) == NewRange(section, key, i, n, section', key')
  {
    hide Lines, ToBrace, SkipSpace, PlainKey, Prefix, FindIn, Find, LineEnd, Newline;
    var k, b := i + |section| + 3, i + 1 + |section|;
    NewKeyLine(q, section, key, k, n, section', key');
    NewHeader(q, section, key, i);
    assert q[i + 1..b] == section && Header(q, i) && b < |q|;
    NoneBehind(q, section, key, i, n);
    hide NewAt, Header;
    FindAt(q, section', key', i, b, k);
    NoHeaders(q, section', key', b, |q|);
    AtEnd(q, section', key');
    NewRangeIs(section, key, i, n, section', key');
  }

  lemma NewRangeIs(section: string, key: string, i: nat, n: nat, section': string, key': string)
    ensures
      var v := i + |section| + 3 + |key| + 1;
      NewRange(section, key, i, n, section', key')
        == if Prefix(section, section') && Prefix(key, key') then Some((v, v + n)) else None
  {
    hide Prefix;
  }

  lemma NoneBehind(q: string, section: string, key: string, i: nat, n: nat)
    requires PlainKey(key) && NewAt(q, section, key, i)
    requires
      var k := i + |section| + 3;
      |q| == k + |key| + 1 + n + 1 && LineEnd(q, k) == |q| - 1
    ensures forall x :: i + 1 + |section| <= x < |q| ==> !Header(q, x)
  {
    var k, b := i + |section| + 3, i + 1 + |section|;
    assert q[k] == q[k..k + |key|][0];
    LineHasNone(q, k, |q| - 1);
    hide LineEnd;
    forall x | b <= x < |q| ensures !Header(q, x) {
      assert x == b || x == b + 1 || x == k || k < x <= |q| - 1;
    }
  }

  lemma AtEnd(q: string, section: string, key: string)
    ensures Find(q, section, key, |q|) == None
  {
  }

  // ---------- the text in front of a new section ----------

  lemma {:induction false} LineAppended(p: string, q: string, i: nat)
    requires i <= |p| < |q| && Agree(p, q, |p|) && q[|p|] == '\n'
    ensures LineEnd(q, i) == LineEnd(p, i)
    decreases |p| - i
  {
    if i < |p| && !Newline(p[i]) {
      LineAppended(p, q, i + 1);
    }
  }

  /** The lines at the end of p stop at the new header. */
  lemma {:induction false} LinesAppended(p: string, q: string, key: string, t: nat)
    requires 0 < t && |p| + 1 < |q| && Agree(p, q, |p|) && q[|p|] == '\n' && q[|p| + 1] == '['
    requires t <= |p| + 1
    ensures
      var r := Lines(p, key, t);
      Lines(q, key, t) == if r.Stop? && r.k >= |p| then Stop(|p| + 1) else r
    decreases |p| + 1 - t, 1
  {
    if t < |p| {
      if !(Newline(p[t - 1]) && p[t] == '[') {
        LinesAppendedOn(p, q, key, t);
      }
    } else if t == |p| {
      LineAppended(p, q, t);
      AtLine(q, key, t, |p|, |p|);
    }
  }

  lemma {:induction false} LinesAppendedOn(p: string, q: string, key: string, t: nat)
    requires 0 < t < |p| && |p| + 1 < |q| && Agree(p, q, |p|) && q[|p|] == '\n' && q[|p| + 1] == '['
    requires !(Newline(p[t - 1]) && p[t] == '[')
    ensures
      var r := Lines(p, key, t);
      Lines(q, key, t) == if r.Stop? && r.k >= |p| then Stop(|p| + 1) else r
    decreases |p| + 1 - t, 0
  {
    hide Lines, KeyMark, LineEnd, Newline, Agree;
    var e := LineEnd(p, t);
    var j := KeyMark(p, key, t, e);
    assert Line(p, key, t, e, j);
    hide Line;
    LineReadOn(p, q, key, t, e, j);
    LineIs(p, key, t, e, j);
    LineIs(q, key, t, e, j);
    LinesAppended(p, q, key, e + 1);
  }

  lemma LineReadOn(p: string, q: string, key: string, t: nat, e: nat, j: nat)
    requires |p| < |q| && Agree(p, q, |p|) && q[|p|] == '\n' && Line(p, key, t, e, j)
    ensures Line(q, key, t, e, j)
  {
    LineAppended(p, q, t);
    assert q[t] == p[t] && q[t - 1] == p[t - 1];
    hide Prefix, Newline, KeyMark, LineEnd;
    MarkAlike(p, q, |p|, key, t, e);
  }

  lemma {:induction false} SpaceAppended(p: string, q: string, i: nat)
    requires i <= |p| && |p| + 1 < |q| && Agree(p, q, |p|) && q[|p|] == '\n' && q[|p| + 1] == '['
    ensures SkipSpace(q, i) == if SkipSpace(p, i) < |p| then SkipSpace(p, i) else |p| + 1
    decreases |p| - i
  {
    if i < |p| {
      if Space(p[i]) { SpaceAppended(p, q, i + 1); }
    } else {
      assert SkipSpace(q, |p| + 1) == |p| + 1;
    }
  }

  lemma {:induction false} NoHeadersOpen(p: string, i: nat, j: nat)
    requires i <= j && forall x :: i <= x < j && x < |p| ==> !Header(p, x)
    ensures OpenHeader(p, i) == OpenHeader(p, j)
    decreases j - i
  {
    hide Header;
    if i < j {
      NoHeadersOpen(p, i + 1, j);
    }
  }

  /** What is found in the longer text: as before, and where nothing was found what the new section answers,
      unless a header that nothing closes lies in front of it. */
  ghost predicate Widened(f: Option<(nat, nat)>, g: Option<(nat, nat)>, blocked: bool, added: Option<(nat, nat)>) {
    g == if f.Some? then f else if blocked then None else added
  }

  lemma FromNewline(p: string, q: string, section: string, key: string, n: nat, section': string, key': string)
    requires Extended(p, q, section, key, n)
    ensures Find(q, section', key', |p| + 1) == NewRange(section, key, |p| + 1, n, section', key')
    ensures Find(q, section', key', |p|) == NewRange(section, key, |p| + 1, n, section', key')
    ensures |p| + 1 < |q| && q[|p|] == '\n' && q[|p| + 1] == '['
  {
    FromNewHeader(q, section, key, |p| + 1, n, section', key');
    hide Find, NewAt, PlainKey, LineEnd;
    FindSkip(q, section', key', |p|);
  }

  /** A header that nothing closes swallows the new one. */
  lemma WidenedOpen(
      p: string, q: string, section: string, key: string, n: nat, i: nat, section': string, key': string)
    requires Extended(p, q, section, key, n) && OneLine(section') && i < |p| && Header(p, i) && ToBrace(p, i + 1) >= |p|
    ensures Find(p, section', key', i) == None && Find(q, section', key', i) == None
  {
    var m := |p| + 2 + |section|;
    FindAt(p, section', key', i, |p|, |p| + 1);
    assert Find(p, section', key', i) == None by { hide Header; }
    forall k | |p| <= k < m ensures q[k] != ']' {
      assert k > |p| + 1 ==> q[k] == q[|p| + 2..m][k - |p| - 2];
    }
    SwallowedHere(p, q, section', i, m);
    NoneBehind(q, section, key, |p| + 1, n);
    AgreeAt(p, q, |p|, i);
    hide Find, NewAt, PlainKey, LineEnd, ToBrace, SkipSpace, Prefix, FindIn, Header;
    FindAt(q, section', key', i, m, SkipSpace(q, m + 1));
    NoHeaders(q, section', key', m, |q|);
    AtEnd(q, section', key');
  }

  lemma {:induction false} WidenedFrom(
      p: string, q: string, section: string, key: string, n: nat, i: nat, section': string, key': string)
    requires Extended(p, q, section, key, n) && OneLine(section') && i <= |p|
    requires Sections(p, section, key, i, NoSection) == NoSection
    ensures Widened(Find(p, section', key', i), Find(q, section', key', i), OpenHeader(p, i),
                    NewRange(section, key, |p| + 1, n, section', key'))
    decreases |p| - i, 1
  {
    FromNewline(p, q, section, key, n, section', key');
    if i == |p| {
      AtEnd(p, section', key');
      hide Find, NewRange;
    } else {
      AgreeAt(p, q, |p|, i);
      hide Header, ToBrace, Find, NewRange, Lines, Widened, Extended;
      if !Header(p, i) {
        WidenedFrom(p, q, section, key, n, i + 1, section', key');
        FindSkip(p, section', key', i);
        FindSkip(q, section', key', i);
      } else if ToBrace(p, i + 1) >= |p| {
        WidenedOpen(p, q, section, key, n, i, section', key');
        assert Widened(None, None, true, NewRange(section, key, |p| + 1, n, section', key')) by { hide *; }
      } else {
        WidenedHeader(p, q, section, key, n, i, section', key');
      }
    }
  }

  lemma {:induction false} WidenedHeader(
      p: string, q: string, section: string, key: string, n: nat, i: nat, section': string, key': string)
    requires Extended(p, q, section, key, n) && OneLine(section') && i < |p| && Header(p, i) && ToBrace(p, i + 1) < |p|
    requires Sections(p, section, key, i, NoSection) == NoSection
    ensures Widened(Find(p, section', key', i), Find(q, section', key', i), OpenHeader(p, i),
                    NewRange(section, key, |p| + 1, n, section', key'))
    decreases |p| - i, 0
  {
    var b := ToBrace(p, i + 1);
    var t := SkipSpace(p, b + 1);
    NotThisSection(p, section, key, i);
    HeaderAlike(p, q, |p|, i);
    assert OpenHeader(p, i) == OpenHeader(p, b);
    hide Sections, Lines, ToBrace, SkipSpace, Prefix, Find, FindIn, Header, OpenHeader, Widened, NewRange, Extended;
    FindAt(p, section', key', i, b, t);
    FindAt(q, section', key', i, b, SkipSpace(q, b + 1));
    if Prefix(p[i + 1..b], section') {
      WidenedLines(p, q, section, key, n, b, section', key');
    } else {
      WidenedFrom(p, q, section, key, n, b, section', key');
    }
  }

  lemma {:induction false} WidenedLines(
      p: string, q: string, section: string, key: string, n: nat, b: nat, section': string, key': string)
    requires Extended(p, q, section, key, n) && OneLine(section') && b < |p| && p[b] == ']'
    requires Sections(p, section, key, b, NoSection) == NoSection
    ensures Widened(FindIn(p, section', key', SkipSpace(p, b + 1)), FindIn(q, section', key', SkipSpace(q, b + 1)),
                    OpenHeader(p, b), NewRange(section, key, |p| + 1, n, section', key'))
    decreases |p| - b, 2
  {
    hide Sections, Lines, SkipSpace, Find, Header, NewRange, NewAt, PlainKey, LineEnd, OpenHeader;
    var t, t' := SkipSpace(p, b + 1), SkipSpace(q, b + 1);
    FromNewline(p, q, section, key, n, section', key');
    SpaceAppended(p, q, b + 1);
    LinesAppended(p, q, key', t');
    LinesAppended(p, q, key', t);
    hide Extended;
    var r := Lines(p, key', t);
    PassOpen(p, key', b);
    if r.Stop? && r.k < |p| {
      PassSection(p, section, key, b, key');
      assert Sections(p, section, key, r.k, NoSection) == NoSection;
      WidenedFrom(p, q, section, key, n, r.k, section', key');
    } else if r.Stop? {
      PastEnd(p, section', key', r.k);
    }
  }

  lemma PassOpen(p: string, key: string, b: nat)
    requires b < |p| && p[b] == ']'
    ensures
      var r := Lines(p, key, SkipSpace(p, b + 1));
      OpenHeader(p, b) == OpenHeader(p, Ends(r)) && SkipSpace(p, b + 1) <= Ends(r)
  {
    var t := SkipSpace(p, b + 1);
    LinesNoHeader(p, key, t);
    assert forall x :: b <= x < t && x < |p| ==> !Header(p, x);
    hide Lines, SkipSpace, Header;
    NoHeadersOpen(p, b, Ends(Lines(p, key, t)));
  }

  lemma PastEnd(p: string, section: string, key: string, k: nat)
    requires k >= |p|
    ensures Find(p, section, key, k) == None && !OpenHeader(p, k)
  {
  }

  // ---------- every other name ----------

  /** Whether the written line answers for the other name: the line of a changed value, if it did before; a
      new line, if its section's header and its key begin the other ones and nothing earlier answers. */
  predicate Takes(p: string, section: string, key: string, section': string, key': string) {
    var r, f := Parse(p, section, key), Where(Parse(p, section', key'));
    match r
    case Found(_, _, _, _, s, e) => f == Some((s, e))
    case NoKey(_, m) => m <= |p| && Answers(p, r, key, section', key') && !(f.Some? && f.value.0 < m)
    case NoSection => !OpenHeader(p, 0) && Prefix(section, section') && Prefix(key, key') && f == None
  }

  /** Behind the header that a new line goes to there is no other '[' in the same line; the new line would
      make a header of it. */
  predicate Tidy(p: string, section: string, key: string) {
    var r := Parse(p, section, key);
    r.NoKey? && 0 < r.secE < |p| && p[r.secE] == '[' ==> Newline(p[r.secE - 1])
  }

  function Text(p: string, r: Option<(nat, nat)>, size: nat): Option<string>
    requires size > 0 && (r.Some? ==> r.value.0 <= r.value.1 <= |p|)
  {
    if r.None? then None else Some(Truncate(p[r.value.0..r.value.1], size))
  }

  lemma ReadIs(p: string, section: string, key: string, size: nat)
    requires size > 0
    ensures Find(p, section, key, 0) == Where(Parse(p, section, key))
    ensures Read(p, section, key, size) == Text(p, Find(p, section, key, 0), size)
  {
    FindIs(p, section, key, 0, NoSection);
    hide Find, Sections, Truncate;
  }

  lemma {:induction false} FoundMark(p: string, section: string, key: string, i: nat, sofar: Place)
    requires !sofar.Found? && Sections(p, section, key, i, sofar).Found?
    ensures
      var s := Sections(p, section, key, i, sofar).valueS;
      0 < s <= |p| && p[s - 1] == '='
    decreases |p| - i
  {
    hide ToBrace, SkipSpace, Prefix, Header, Lines;
    if Header(p, i) {
      var b := ToBrace(p, i + 1);
      if Prefix(p[i + 1..b], section) {
        var t := SkipSpace(p, b + 1);
        if Lines(p, key, t).Stop? {
          FoundMark(p, section, key, Lines(p, key, t).k, NoKey(i + 1, t));
        } else {
          KeyEndsLine(p, key, t);
        }
      } else {
        FoundMark(p, section, key, b, sofar);
      }
    } else {
      FoundMark(p, section, key, i + 1, sofar);
    }
  }

  lemma ChangedThere(p: string, section: string, key: string, value: string)
    requires OneLine(value) && Parse(p, section, key).Found?
    ensures
      var r := Parse(p, section, key);
      && r.valueS <= r.valueE <= |p|
      && Changed(p, p[..r.valueS] + value + p[r.valueE..], r.valueS, r.valueE, |value|)
  {
    var r := Parse(p, section, key);
    SectionsAhead(p, section, key, 0, NoSection);
    FoundAlike(p, p, section, key, 0, NoSection);
    FoundMark(p, section, key, 0, NoSection);
    hide Sections, LineEnd;
    var s, e := r.valueS, r.valueE;
    var q := p[..s] + value + p[e..];
    assert q[s + |value|..] == p[e..];
    LineEndIsAt(q, s, s + |value|);
  }

  lemma FramedText(
      p: string, q: string, s: nat, e: nat, n: nat, f: Option<(nat, nat)>, g: Option<(nat, nat)>, size: nat)
    requires Changed(p, q, s, e, n) && Framed(f, g, s, e, n) && size > 0
    requires f.Some? ==> f.value.0 <= f.value.1 <= |p|
    ensures g.Some? ==> g.value.0 <= g.value.1 <= |q|
    ensures s + n <= |q|
    ensures Text(q, g, size) == if f == Some((s, e)) then Some(Truncate(q[s..s + n], size)) else Text(p, f, size)
  {
    hide LineEnd, Truncate;
    if f.Some? && f.value.0 > e {
      SliceShift(p, e, q, s + n, f.value.0, f.value.1);
    } else if f.Some? && f.value.0 < s {
      assert p[f.value.0..f.value.1] == q[f.value.0..f.value.1];
    }
  }

  /** A value that is changed, read under any name. */
  lemma FrameOfValue(
      p: string, section: string, key: string, value: string, section': string, key': string, size: nat)
    requires OneLine(value) && size > 0 && Parse(p, section, key).Found?
    ensures Write(p, section, key, value).Some?
    ensures Read(Write(p, section, key, value).value, section', key', size) ==
              if Takes(p, section, key, section', key') then Some(Truncate(value, size))
              else Read(p, section', key', size)
  {
    var r := Parse(p, section, key);
    ChangedThere(p, section, key, value);
    var s, e, n := r.valueS, r.valueE, |value|;
    var q := p[..s] + value + p[e..];
    FramedFrom(p, q, s, e, n, section, key, 0, NoSection, section', key');
    ReadIs(p, section', key', size);
    ReadIs(q, section', key', size);
    assert q[s..s + n] == value;
    hide Sections, Read, Find, Changed, Framed, Parse, Truncate, Text;
    FramedText(p, q, s, e, n, Find(p, section', key', 0), Find(q, section', key', 0), size);
  }

  lemma GrownThere(p: string, section: string, key: string, value: string)
    requires OneLine(value) && PlainKey(key) && Parse(p, section, key).NoKey? && Parse(p, section, key).secE <= |p|
    requires Tidy(p, section, key)
    ensures
      var m := Parse(p, section, key).secE;
      var q := p[..m] + key + "=" + value + "\n" + p[m..];
      Grown(p, q, m, |key| + |value| + 2, key) && q[m + |key| + 1..m + |key| + 1 + |value|] == value
  {
    SectionsAhead(p, section, key, 0, NoSection);
    var m, n := Parse(p, section, key).secE, |key| + |value| + 2;
    var line := key + "=" + value + "\n";
    var q := p[..m] + key + "=" + value + "\n" + p[m..];
    assert 0 < m && SameStart(p, m, q, m + n);
    hide Parse, LineEnd, PlainKey;
    assert q == p[..m] + line + p[m..];
    GrownLine(p, q, m, key, value);
  }

  lemma GrownLine(p: string, q: string, m: nat, key: string, value: string)
    requires OneLine(value) && PlainKey(key) && m <= |p|
    requires q == p[..m] + (key + "=" + value + "\n") + p[m..]
    ensures
      var n := |key| + |value| + 2;
      && q[m..m + |key|] == key && q[m + |key|] == '=' && q[m + n - 1] == '\n' && q[m + n..] == p[m..]
      && Agree(p, q, m) && LineEnd(q, m) == m + n - 1 && q[m + |key| + 1..m + |key| + 1 + |value|] == value
  {
    var line, n := key + "=" + value + "\n", |key| + |value| + 2;
    assert q[m..m + n] == line;
    forall k | m <= k < m + n ensures q[k] == line[k - m] {
      assert q[m..m + n][k - m] == line[k - m];
    }
    hide LineEnd;
    LineEndIsAt(q, m, m + n - 1);
  }

  lemma RegrownText(
      p: string, q: string, m: nat, n: nat, key: string, other: bool, f: Option<(nat, nat)>, g: Option<(nat, nat)>,
      size: nat)
    requires Grown(p, q, m, n, key) && Regrown(f, g, m, n, |key|, other) && size > 0
    requires f.Some? ==> f.value.0 <= f.value.1 <= |p|
    ensures m + n <= |q| && (g.Some? ==> g.value.0 <= g.value.1 <= |q|)
    ensures Text(q, g, size) ==
              if other && !(f.Some? && f.value.0 < m) then Some(Truncate(q[m + |key| + 1..m + n - 1], size))
              else Text(p, f, size)
  {
    hide LineEnd, Truncate, PlainKey, SameStart;
    if f.Some? && f.value.0 > m {
      SliceShift(p, m, q, m + n, f.value.0, f.value.1);
    } else if f.Some? && f.value.1 < m {
      assert p[f.value.0..f.value.1] == q[f.value.0..f.value.1];
    }
  }

  /** A new key in its section, read under any name. */
  lemma FrameOfKey(
      p: string, section: string, key: string, value: string, section': string, key': string, size: nat)
    requires OneLine(value) && PlainKey(key) && size > 0 && Tidy(p, section, key)
    requires Parse(p, section, key).NoKey? && Write(p, section, key, value).Some?
    ensures Read(Write(p, section, key, value).value, section', key', size) ==
              if Takes(p, section, key, section', key') then Some(Truncate(value, size))
              else Read(p, section', key', size)
  {
    var r := Parse(p, section, key);
    var m, n := r.secE, |key| + |value| + 2;
    if m <= |p| {
      GrownThere(p, section, key, value);
      var q := p[..m] + key + "=" + value + "\n" + p[m..];
      RegrownFrom(p, q, m, n, section, key, 0, NoSection, section', key');
      ReadIs(p, section', key', size);
      ReadIs(q, section', key', size);
      hide Sections, Read, Find, Grown, Regrown, Parse, Truncate, Text, Answers;
      var other := Answers(p, r, key, section', key');
      RegrownText(p, q, m, n, key, other, Find(p, section', key', 0), Find(q, section', key', 0), size);
    }
  }

  lemma ExtendedThere(p: string, section: string, key: string, value: string)
    requires OneLine(value) && PlainKey(key) && ']' !in section && OneLine(section) && p != ""
    ensures
      var q := p + "\n" + "[" + section + "]\n" + key + "=" + value + "\n";
      Extended(p, q, section, key, |value|) && q[|q| - 1 - |value|..|q| - 1] == value
  {
    var q := p + "\n" + "[" + section + "]\n" + key + "=" + value + "\n";
    var k := |p| + 1 + |section| + 3;
    var line := key + "=" + value + "\n";
    assert q[|p| + 2..|p| + 2 + |section|] == section && q[k..] == line && q[k..k + |key|] == key;
    hide LineEnd, PlainKey;
    KeyLineEnds(q, key, value, k);
    assert q[|q| - 1 - |value|..|q| - 1] == line[|key| + 1..|key| + 1 + |value|];
  }

  lemma KeyLineEnds(q: string, key: string, value: string, k: nat)
    requires OneLine(value) && PlainKey(key) && k <= |q| && q[k..] == key + "=" + value + "\n"
    ensures LineEnd(q, k) == |q| - 1
  {
    var line := key + "=" + value + "\n";
    forall x | k <= x < |q| ensures q[x] == line[x - k] {
      assert q[k..][x - k] == line[x - k];
    }
    hide LineEnd;
    LineEndIsAt(q, k, |q| - 1);
  }

  lemma NewText(p: string, section: string, key: string, value: string, section': string, key': string)
    requires OneLine(value) && PlainKey(key) && ']' !in section && OneLine(section) && OneLine(section')
    requires Parse(p, section, key) == NoSection
    ensures Write(p, section, key, value).Some?
    ensures
      var q := Write(p, section, key, value).value;
      var start := if p == "" then 0 else |p| + 1;
      && |value| + 1 <= |q| && q[|q| - 1 - |value|..|q| - 1] == value && (p != "" ==> |p| < |q| && Agree(p, q, |p|))
      && |q| - 1 - |value| == start + |section| + 3 + |key| + 1
      && Widened(Find(p, section', key', 0), Find(q, section', key', 0), OpenHeader(p, 0),
                 NewRange(section, key, start, |value|, section', key'))
  {
    var q := Write(p, section, key, value).value;
    if p == "" {
      EmptyText(q, section, key, value, section', key');
      hide NewRange, Prefix;
      AtEnd(p, section', key');
    } else {
      ExtendedThere(p, section, key, value);
      WidenedFrom(p, q, section, key, |value|, 0, section', key');
      hide Sections, Find, Widened, NewRange, OpenHeader, LineEnd;
    }
  }

  lemma EmptyText(q: string, section: string, key: string, value: string, section': string, key': string)
    requires OneLine(value) && PlainKey(key) && ']' !in section
    requires q == "[" + section + "]\n" + key + "=" + value + "\n"
    ensures Find(q, section', key', 0) == NewRange(section, key, 0, |value|, section', key')
    ensures q[|q| - 1 - |value|..|q| - 1] == value
  {
    var k := |section| + 3;
    var line := key + "=" + value + "\n";
    assert q[k..] == line && q[1..1 + |section|] == section && q[k..k + |key|] == key;
    KeyLineEnds(q, key, value, k);
    hide Find, NewRange, LineEnd;
    FromNewHeader(q, section, key, 0, |value|, section', key');
    assert q[|q| - 1 - |value|..|q| - 1] == line[|key| + 1..|key| + 1 + |value|];
  }

  /** A new section at the end, read under any name. */
  lemma FrameOfSection(
      p: string, section: string, key: string, value: string, section': string, key': string, size: nat)
    requires OneLine(value) && PlainKey(key) && ']' !in section && OneLine(section) && OneLine(section') && size > 0
    requires Parse(p, section, key) == NoSection
    ensures Write(p, section, key, value).Some?
    ensures Read(Write(p, section, key, value).value, section', key', size) ==
              if Takes(p, section, key, section', key') then Some(Truncate(value, size))
              else Read(p, section', key', size)
  {
    NewText(p, section, key, value, section', key');
    var q := Write(p, section, key, value).value;
    var f := Find(p, section', key', 0);
    ReadIs(p, section', key', size);
    ReadIs(q, section', key', size);
    hide Sections, Read, Find, Parse, Truncate, Write, OpenHeader, Prefix;
    if f.Some? {
      assert p[f.value.0..f.value.1] == q[f.value.0..f.value.1];
    }
  }

  /** After any write every key of every section is read as before, except exactly where the written line
      answers; there the new value is read. */
  lemma WriteFrame(
      p: string, section: string, key: string, value: string, section': string, key': string, size: nat)
    requires OneLine(value) && PlainKey(key) && ']' !in section && OneLine(section) && OneLine(section') && size > 0
    requires Write(p, section, key, value).Some? && Tidy(p, section, key)
    ensures Read(Write(p, section, key, value).value, section', key', size) ==
              if Takes(p, section, key, section', key') then Some(Truncate(value, size))
              else Read(p, section', key', size)
  {
    match Parse(p, section, key) {
      case NoSection => FrameOfSection(p, section, key, value, section', key', size);
      case NoKey(_, _) => FrameOfKey(p, section, key, value, section', key', size);
      case Found(_, _, _, _, _, _) => FrameOfValue(p, section, key, value, section', key', size);
    }
    hide Read, Write, Takes, Parse, Truncate;
  }

  /** So writing kx of section ab overwrites k of section a. */
  lemma OtherKeyOverwritten(value: string)
    requires OneLine(value) && value != "1"
    ensures
      var w := Write("[a]\nk=1\n", "ab", "kx", value);
      && w.Some? && Read("[a]\nk=1\n", "a", "k", |value| + 2) == Some("1")
      && Read(w.value, "a", "k", |value| + 2) == Some(value)
  {
    var p := "[a]\nk=1\n";
    hide Sections, Takes, Parse;
    ShortText("ab", "kx");
    ShortText("a", "k");
    assert p[6..7] == "1" && p[..4] != [];
    assert Write(p, "ab", "kx", value).Some?;
    assert Read(p, "a", "k", |value| + 2) == Some("1");
    TakesShort();
    WriteFrame(p, "ab", "kx", value, "a", "k", |value| + 2);
  }

  lemma TakesShort()
    ensures Takes("[a]\nk=1\n", "ab", "kx", "a", "k") && Tidy("[a]\nk=1\n", "ab", "kx")
  {
    ShortText("ab", "kx");
    ShortText("a", "k");
    hide Parse;
  }

  lemma ShortText(section: string, key: string)
    requires (section == "ab" && key == "kx") || (section == "a" && key == "k")
    ensures Parse("[a]\nk=1\n", section, key) == Found(1, 4, 4, 4, 6, 7)
  {
    var p := "[a]\nk=1\n";
    BraceIsAt(p, 1, 2);
    assert SkipSpace(p, 3) == 4;
    LineEndIsAt(p, 4, 7);
    NoEquals(p, 4, 5, 7);
    assert p[4..5] == "k" && p[1..2] == "a";
    AtLine(p, key, 4, 7, 5);
    AtHeader(p, section, key, 0, NoSection, 2, 4);
    hide Sections, Lines, ToBrace, SkipSpace;
  }
}
