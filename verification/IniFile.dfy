/** client/inifile.c: finding a key in the text of an ini file, and writing one. The text is what the
    C string holds; reading past its end gives the zero bytes of the buffer. */
module IniFile {
  import opened Wrappers

  /** parse_file's answer: the places it sets. */
  datatype Place =
    | NoSection
    | NoKey(secS: nat, secE: nat)
    | Found(secS: nat, secE: nat, keyS: nat, keyE: int, valueS: nat, valueE: nat)

  /** The lines of one section: a key at s with its '=' at j and its line's end at e, or none up to k. */
  datatype Body = Stop(k: nat) | Key(s: nat, j: nat, e: nat)

  predicate Newline(c: char) {
    c == '\n' || c == '\r'
  }

  predicate Space(c: char) {
    c == ' ' || 9 <= c as int <= 13
  }

  /** strncmp(a, b, |a|) == 0, for a without a zero byte. */
  predicate Prefix(a: string, b: string) {
    |a| <= |b| && a == b[..|a|]
  }

  function ToBrace(p: string, i: nat): (b: nat)
    ensures i <= b && (i <= |p| ==> b <= |p|) && (b < |p| ==> p[b] == ']')
    ensures forall k :: i <= k < b && k < |p| ==> p[k] != ']'
    decreases |p| - i
  {
    if i >= |p| || p[i] == ']' then i else ToBrace(p, i + 1)
  }

  function SkipSpace(p: string, i: nat): (t: nat)
    ensures i <= t && (i <= |p| ==> t <= |p|) && (t < |p| ==> !Space(p[t]))
    ensures forall k :: i <= k < t && k < |p| ==> Space(p[k])
    ensures i >= |p| ==> t == i
    decreases |p| - i
  {
    if i >= |p| || !Space(p[i]) then i else SkipSpace(p, i + 1)
  }

  function LineEnd(p: string, i: nat): (e: nat)
    requires i <= |p|
    ensures i <= e <= |p| && (e < |p| ==> Newline(p[e]))
    ensures forall k :: i <= k < e ==> !Newline(p[k])
    decreases |p| - i
  {
    if i == |p| || Newline(p[i]) then i else LineEnd(p, i + 1)
  }

  function Equals(p: string, j: nat, e: nat): (r: nat)
    requires j <= e <= |p|
    ensures j <= r <= e && (r < e ==> p[r] == '=')
    ensures forall k :: j <= k < r ==> p[k] != '='
    decreases e - j
  {
    if j == e || p[j] == '=' then j else Equals(p, j + 1, e)
  }

  /** The '=' of the line from s to e if the line is no comment and what stands before the first '=' is
      a non-empty beginning of the key; e otherwise. */
  function KeyMark(p: string, key: string, s: nat, e: nat): (j: nat)
    requires s <= e <= |p|
    ensures s <= j <= e && (j < e ==> s < j && p[j] == '=' && Prefix(p[s..j], key))
  {
    if s == e || p[s] == ';' || p[s] == '=' then e
    else
      var j := Equals(p, s, e);
      if j < e && Prefix(p[s..j], key) then j else e
  }

  /** The loop over the lines of a section. */
  function Lines(p: string, key: string, i: nat): (r: Body)
    requires i > 0
    ensures r.Stop? ==> i <= r.k && (r.k < |p| ==> Newline(p[r.k - 1]) && p[r.k] == '[')
    ensures r.Key? ==> i <= r.s < r.j < r.e <= |p| && (r.e < |p| ==> Newline(p[r.e]))
    decreases |p| - i
  {
    if i >= |p| || (Newline(p[i - 1]) && p[i] == '[') then Stop(i)
    else
      var e := LineEnd(p, i);
      var j := KeyMark(p, key, i, e);
      if j < e then Key(i, j, e) else Lines(p, key, e + 1)
  }

  predicate Header(p: string, i: nat)
    requires i < |p|
  {
    (i == 0 || Newline(p[i - 1])) && p[i] == '['
  }

  /** The outer loop from i on; `sofar` is the section found last. */
  function Sections(p: string, section: string, key: string, i: nat, sofar: Place): (r: Place)
    decreases |p| - i
  {
    if i >= |p| then sofar
    else if Header(p, i) then
      var b := ToBrace(p, i + 1);
      if Prefix(p[i + 1..b], section) then
        var t := SkipSpace(p, b + 1);
        match Lines(p, key, t)
        case Key(s, j, e) => Found(i + 1, t, s, j - 1, j + 1, e)
        case Stop(k) => Sections(p, section, key, k, NoKey(i + 1, t))
      else Sections(p, section, key, b, sofar)
    else Sections(p, section, key, i + 1, sofar)
  }

  function Parse(p: string, section: string, key: string): Place {
    Sections(p, section, key, 0, NoSection)
  }

  function Truncate(value: string, size: nat): string
    requires size > 0
  {
    if size - 1 < |value| then value[..size - 1] else value
  }

  /** read_profile_string; None for "not found". */
  function Read(p: string, section: string, key: string, size: nat): Option<string>
    requires size > 0
  {
    var r := Parse(p, section, key);
    if r.Found? && r.valueS <= r.valueE <= |p| then Some(Truncate(p[r.valueS..r.valueE], size)) else None
  }

  /** What write_profile_string leaves in the file. None when the rest of the file goes through sprintf
      as its format and holds a '%', which has no defined outcome. Past an unclosed header the
      section's end lies behind the terminating zero byte, and nothing new is written. */
  function Write(p: string, section: string, key: string, value: string): Option<string> {
    match Parse(p, section, key)
    case NoSection =>
      Some((if p == "" then "" else p + "\n") + "[" + section + "]\n" + key + "=" + value + "\n")
    case NoKey(_, e) =>
      if e > |p| then Some(p)
      else if '%' in p[e..] then None
      else Some(p[..e] + key + "=" + value + "\n" + p[e..])
    case Found(_, _, _, _, s, e) =>
      if s <= e <= |p| then Some(p[..s] + value + p[e..]) else None
  }

  // ---------- the code ----------

  /** p[i], with the zero bytes behind the text. */
  function Byte(p: string, i: nat): char {
    if i < |p| then p[i] else '\0'
  }

  method FindBrace(p: string, from: nat) returns (i: nat)
    requires '\0' !in p && from <= |p|
    ensures i == ToBrace(p, from)
  {
    i := from;
    while Byte(p, i) != ']' && Byte(p, i) != '\0'
      invariant i <= |p| && ToBrace(p, from) == ToBrace(p, i)
      decreases |p| - i
    {
      i := i + 1;
    }
  }

  method FindText(p: string, from: nat) returns (i: nat)
    ensures i == SkipSpace(p, from)
  {
    i := from;
    while Space(Byte(p, i))
      invariant SkipSpace(p, from) == SkipSpace(p, i)
      decreases |p| - i
    {
      i := i + 1;
    }
  }

  method FindLineEnd(p: string, from: nat) returns (i: nat)
    requires '\0' !in p && from <= |p|
    ensures i == LineEnd(p, from)
  {
    i := from;
    while !Newline(Byte(p, i)) && Byte(p, i) != '\0'
      invariant i <= |p| && LineEnd(p, from) == LineEnd(p, i)
      decreases |p| - i
    {
      i := i + 1;
    }
  }

  /** The search for the key in one line, from start to i. */
  method FindMark(p: string, key: string, start: nat, i: nat) returns (mark: nat)
    requires start <= i <= |p|
    ensures mark == KeyMark(p, key, start, i)
  {
    var j := start;
    if Byte(p, j) != ';' {
      while j < i && p[j] != '='
        invariant start <= j <= i && Equals(p, start, i) == Equals(p, j, i)
        invariant start < j < i && p[j] == '=' ==> !Prefix(p[start..j], key)
        invariant start < j ==> p[start] != '='
        decreases i - j
      {
        j := j + 1;
        if j < i && p[j] == '=' && Prefix(p[start..j], key) {
          return j;
        }
      }
    }
    return i;
  }

  /** parse_file's loop over the lines of a section. */
  method FindLine(p: string, key: string, first: nat) returns (r: Body)
    requires '\0' !in p && first > 0
    ensures r == Lines(p, key, first)
  {
    hide KeyMark, LineEnd, Newline;
    var i := first;
    while !(Newline(Byte(p, i - 1)) && Byte(p, i) == '[') && Byte(p, i) != '\0'
      invariant i > 0 && Lines(p, key, first) == Lines(p, key, i)
      decreases |p| - i
    {
      var start := i;
      i := FindLineEnd(p, i);
      var j := FindMark(p, key, start, i);
      if j < i {
        return Key(start, j, i);
      }
      i := i + 1;
    }
    return Stop(i);
  }

  /** parse_file: the result says whether the key was found. */
  method ParseFile(section: string, key: string, p: string) returns (found: bool, place: Place)
    requires '\0' !in p
    ensures place == Parse(p, section, key) && found == place.Found?
  {
    hide Lines, Prefix, ToBrace, SkipSpace, Newline;
    place := NoSection;
    var i := 0;
    while Byte(p, i) != '\0'
      invariant Parse(p, section, key) == Sections(p, section, key, i, place) && !place.Found?
      decreases |p| - i
    {
      if (i == 0 || Newline(Byte(p, i - 1))) && Byte(p, i) == '[' {
        var start := i + 1;
        i := FindBrace(p, start);
        if Prefix(p[start..i], section) {
          i := FindText(p, i + 1);
          var end := i;
          var line := FindLine(p, key, i);
          if line.Key? {
            return true, Found(start, end, line.s, line.j - 1, line.j + 1, line.e);
          }
          place := NoKey(start, end);
          i := line.k;
        }
      } else {
        i := i + 1;
      }
    }
    return false, place;
  }

  // ---------- which line answers for a key ----------

  /** A value is cut only when it does not fit the buffer with its zero byte, and then to what does. */
  lemma CutToFit(value: string, size: nat)
    requires size > 0
    ensures
      var r := Truncate(value, size);
      |r| <= |value| && r == value[..|r|] && |r| < size && (|r| < |value| ==> |r| == size - 1)
  {
  }

  /** A line answers for a key exactly when it is no comment and what stands before its first '=' is a non-empty
      beginning of the key; the value is then what follows that '='. */
  lemma LineAnswers(p: string, key: string, s: nat, e: nat, j: nat)
    requires s <= e <= |p|
    ensures (KeyMark(p, key, s, e) == j && j < e) <==>
              s < j < e && p[s] != ';' && p[j] == '=' && (forall k :: s <= k < j ==> p[k] != '=')
              && j - s <= |key| && p[s..j] == key[..j - s]
  {
    if s < j < e && p[j] == '=' && forall k :: s <= k < j ==> p[k] != '=' {
      FirstEqualsIs(p, s, j, e);
    }
  }

  lemma {:induction false} FirstEqualsIs(p: string, s: nat, j: nat, e: nat)
    requires s <= j < e <= |p| && p[j] == '=' && forall k :: s <= k < j ==> p[k] != '='
    ensures Equals(p, s, e) == j
    decreases j - s
  {
    if s < j {
      FirstEqualsIs(p, s + 1, j, e);
    }
  }

  // ---------- texts that agree up to m parse alike up to m ----------

  ghost predicate Agree(p: string, q: string, m: nat) {
    m <= |p| && m <= |q| && forall k :: 0 <= k < m ==> p[k] == q[k]
  }

  lemma {:induction false} BraceAlike(p: string, q: string, m: nat, i: nat)
    requires Agree(p, q, m) && ToBrace(p, i) < m
    ensures ToBrace(q, i) == ToBrace(p, i)
    decreases |p| - i
  {
    if p[i] != ']' {
      BraceAlike(p, q, m, i + 1);
    }
  }

  lemma {:induction false} SpaceAlike(p: string, q: string, m: nat, i: nat)
    requires Agree(p, q, m) && SkipSpace(p, i) < m
    ensures SkipSpace(q, i) == SkipSpace(p, i)
    decreases |p| - i
  {
    if Space(p[i]) {
      SpaceAlike(p, q, m, i + 1);
    }
  }

  /** The same, when the first text's run of blanks ends exactly at m and the second goes on otherwise. */
  lemma {:induction false} SpaceEndsAt(p: string, q: string, m: nat, i: nat)
    requires Agree(p, q, m) && i <= SkipSpace(p, i) == m && (m < |q| ==> !Space(q[m]))
    ensures SkipSpace(q, i) == m
    decreases m - i
  {
    if i < m {
      SpaceEndsAt(p, q, m, i + 1);
    }
  }

  lemma {:induction false} LineAlike(p: string, q: string, m: nat, i: nat)
    requires Agree(p, q, m) && i <= |p| && LineEnd(p, i) < m
    ensures LineEnd(q, i) == LineEnd(p, i)
    decreases |p| - i
  {
    if !Newline(p[i]) {
      LineAlike(p, q, m, i + 1);
    }
  }

  lemma {:induction false} EqualsAlike(p: string, q: string, m: nat, j: nat, e: nat, e': nat)
    requires Agree(p, q, m) && j <= e <= |p| && j <= e' <= |q| && Equals(p, j, e) < m && m <= e'
    requires Equals(p, j, e) < e
    ensures Equals(q, j, e') == Equals(p, j, e)
    decreases e - j
  {
    if p[j] != '=' {
      EqualsAlike(p, q, m, j + 1, e, e');
    }
  }

  lemma {:induction false} NoEqualsAlike(p: string, q: string, m: nat, j: nat, e: nat)
    requires Agree(p, q, m) && j <= e <= m
    ensures Equals(q, j, e) == Equals(p, j, e)
    decreases e - j
  {
    if j < e && p[j] != '=' {
      NoEqualsAlike(p, q, m, j + 1, e);
    }
  }

  lemma MarkAlike(p: string, q: string, m: nat, key: string, s: nat, e: nat)
    requires Agree(p, q, m) && s <= e <= m
    ensures KeyMark(q, key, s, e) == KeyMark(p, key, s, e)
  {
    NoEqualsAlike(p, q, m, s, e);
    assert forall j :: s <= j <= e ==> p[s..j] == q[s..j];
  }

  /** One round of the loop over the lines. */
  lemma AtLine(p: string, key: string, i: nat, e: nat, j: nat)
    requires 0 < i < |p| && !(Newline(p[i - 1]) && p[i] == '[') && e == LineEnd(p, i) && j == KeyMark(p, key, i, e)
    ensures Lines(p, key, i) == if j < e then Key(i, j, e) else Lines(p, key, e + 1)
  {
    hide LineEnd, KeyMark, Newline;
  }

  /** A section without the key that stops before m. */
  lemma {:induction false} StopAlike(p: string, q: string, m: nat, key: string, i: nat)
    requires Agree(p, q, m) && i > 0 && Lines(p, key, i).Stop? && Lines(p, key, i).k < m
    ensures Lines(q, key, i) == Lines(p, key, i)
    decreases |p| - i
  {
    hide KeyMark, LineEnd, Newline, Prefix;
    if !(Newline(p[i - 1]) && p[i] == '[') {
      var e := LineEnd(p, i);
      AtLine(p, key, i, e, KeyMark(p, key, i, e));
      hide Lines;
      LineAlike(p, q, m, i);
      MarkAlike(p, q, m, key, i, e);
      StopAlike(p, q, m, key, e + 1);
      AtLine(q, key, i, e, KeyMark(q, key, i, e));
    }
  }

  /** A key whose '=' lies before m: the value then runs to the end of the line in the other text. */
  lemma {:induction false} KeyAlike(p: string, q: string, m: nat, key: string, i: nat)
    requires Agree(p, q, m) && i > 0 && Lines(p, key, i).Key? && Lines(p, key, i).j + 1 == m
    ensures Lines(q, key, i) == Lines(p, key, i).(e := LineEnd(q, m))
    decreases |p| - i
  {
    assert i < |p| && !(Newline(p[i - 1]) && p[i] == '[');
    var e := LineEnd(p, i);
    var j := KeyMark(p, key, i, e);
    AtLine(p, key, i, e, j);
    hide Lines, Prefix, Newline, KeyMark, LineEnd;
    if j < e {
      LineGoesOn(q, i, m);
      KeyMarkAlike(p, q, m, key, i, e, LineEnd(q, i));
      AtLine(q, key, i, LineEnd(q, i), j);
    } else {
      LineAlike(p, q, m, i);
      MarkAlike(p, q, m, key, i, e);
      KeyAlike(p, q, m, key, e + 1);
      AtLine(q, key, i, e, e);
    }
  }

  lemma KeyMarkAlike(p: string, q: string, m: nat, key: string, s: nat, e: nat, e': nat)
    requires Agree(p, q, m) && s <= e <= |p| && m <= e' <= |q|
    requires KeyMark(p, key, s, e) < e && KeyMark(p, key, s, e) + 1 == m
    ensures KeyMark(q, key, s, e') == KeyMark(p, key, s, e)
  {
    hide Prefix;
    EqualsAlike(p, q, m, s, e, e');
    var j := KeyMark(p, key, s, e);
    assert p[s..j] == q[s..j];
  }

  lemma {:induction false} LineGoesOn(q: string, i: nat, m: nat)
    requires i <= m <= |q| && forall k :: i <= k < m ==> !Newline(q[k])
    ensures LineEnd(q, i) == LineEnd(q, m) && LineEnd(q, i) >= m
    decreases m - i
  {
    if i < m {
      LineGoesOn(q, i + 1, m);
    }
  }

  /** One round of the outer loop at a header. */
  lemma AtHeader(p: string, section: string, key: string, i: nat, sofar: Place, b: nat, t: nat)
    requires i < |p| && Header(p, i) && b == ToBrace(p, i + 1) && t == SkipSpace(p, b + 1)
    ensures
      Sections(p, section, key, i, sofar) ==
        if !Prefix(p[i + 1..b], section) then Sections(p, section, key, b, sofar)
        else
          match Lines(p, key, t)
          case Key(s, j, e) => Found(i + 1, t, s, j - 1, j + 1, e)
          case Stop(k) => Sections(p, section, key, k, NoKey(i + 1, t))
  {
    hide Lines, Prefix, ToBrace, SkipSpace, Newline;
  }

  // ---------- what the outer loop finds lies ahead ----------

  ghost predicate Ahead(p: string, r: Place, i: nat, sofar: Place) {
    match r
    case NoSection => sofar == NoSection
    case NoKey(s, e) => r == sofar || (i < s < e)
    case Found(s, e, ks, ke, vs, ve) =>
      r == sofar || (i < s < e <= ks < vs <= ve <= |p| && ke == vs - 2 && (ve < |p| ==> Newline(p[ve])))
  }

  lemma {:induction false} SectionsAhead(p: string, section: string, key: string, i: nat, sofar: Place)
    ensures Ahead(p, Sections(p, section, key, i, sofar), i, sofar)
    decreases |p| - i
  {
    hide Lines, ToBrace, SkipSpace, Prefix, Newline, Space, Header;
    if i < |p| {
      if Header(p, i) {
        var b := ToBrace(p, i + 1);
        if Prefix(p[i + 1..b], section) {
          var t := SkipSpace(p, b + 1);
          var r := Lines(p, key, t);
          if r.Stop? {
            SectionsAhead(p, section, key, r.k, NoKey(i + 1, t));
          }
        } else {
          SectionsAhead(p, section, key, b, sofar);
        }
      } else {
        SectionsAhead(p, section, key, i + 1, sofar);
      }
    }
  }

  lemma HeaderAlike(p: string, q: string, m: nat, i: nat)
    requires i < |p| && Agree(p, q, m) && ToBrace(p, i + 1) < m
    ensures i < |q| && Header(q, i) == Header(p, i)
    ensures
      var b := ToBrace(p, i + 1);
      ToBrace(q, i + 1) == b && q[i + 1..b] == p[i + 1..b]
  {
    BraceAlike(p, q, m, i + 1);
  }

  // ---------- where a section is ----------

  lemma {:induction false} NoneAhead(p: string, section: string, key: string, i: nat, sofar: Place)
    requires !sofar.Found? && (sofar.NoKey? ==> sofar.secS <= i) && Sections(p, section, key, i, sofar) == sofar
    ensures Sections(p, section, key, i, NoSection) == NoSection
    decreases |p| - i
  {
    hide Lines, ToBrace, SkipSpace, Prefix, Newline, Space, Header;
    if i < |p| {
      if Header(p, i) {
        var b := ToBrace(p, i + 1);
        if Prefix(p[i + 1..b], section) {
          var t := SkipSpace(p, b + 1);
          var r := Lines(p, key, t);
          if r.Stop? {
            SectionsAhead(p, section, key, r.k, NoKey(i + 1, t));
          }
        } else {
          NoneAhead(p, section, key, b, sofar);
        }
      } else {
        NoneAhead(p, section, key, i + 1, sofar);
      }
    }
  }

  /** A header at h, its brace, and what stands there begins the section's name. */
  predicate Heads(p: string, section: string, h: nat) {
    h < |p| && Header(p, h) && h + 1 <= ToBrace(p, h + 1) <= |p| && Prefix(p[h + 1..ToBrace(p, h + 1)], section)
  }

  ghost predicate AtLast(p: string, section: string, key: string, r: Place) {
    && r.NoKey? && 0 < r.secS && Heads(p, section, r.secS - 1) && r.secE == SkipSpace(p, ToBrace(p, r.secS) + 1)
    && r.secE > 0 && Lines(p, key, r.secE).Stop?
    && Sections(p, section, key, Lines(p, key, r.secE).k, NoSection) == NoSection
  }

  /** A key not found goes to the section found last: a header that begins the name, with the blanks behind it
      passed over, no line up to the next header that answers for the key, and behind those no such section. */
  lemma {:induction false} LastSection(p: string, section: string, key: string, i: nat, sofar: Place)
    requires !sofar.Found? && (sofar.NoKey? ==> sofar.secS <= i)
    requires Sections(p, section, key, i, sofar).NoKey? && Sections(p, section, key, i, sofar) != sofar
    ensures AtLast(p, section, key, Sections(p, section, key, i, sofar))
    decreases |p| - i, 1
  {
    hide AtLast, Header, Lines, ToBrace, SkipSpace, Prefix;
    if Header(p, i) {
      LastSectionHeader(p, section, key, i, sofar);
    } else {
      LastSection(p, section, key, i + 1, sofar);
    }
  }

  lemma {:induction false} LastSectionHeader(p: string, section: string, key: string, i: nat, sofar: Place)
    requires !sofar.Found? && (sofar.NoKey? ==> sofar.secS <= i) && i < |p| && Header(p, i)
    requires Sections(p, section, key, i, sofar).NoKey? && Sections(p, section, key, i, sofar) != sofar
    ensures AtLast(p, section, key, Sections(p, section, key, i, sofar))
    decreases |p| - i, 0
  {
    var b := ToBrace(p, i + 1);
    var t := SkipSpace(p, b + 1);
    AtHeader(p, section, key, i, sofar, b, t);
    hide Sections, Lines, ToBrace, SkipSpace, Prefix, Header;
    if Prefix(p[i + 1..b], section) {
      var k, here := Lines(p, key, t).k, NoKey(i + 1, t);
      if Sections(p, section, key, k, here) == here {
        NoneAhead(p, section, key, k, here);
      } else {
        hide AtLast;
        LastSection(p, section, key, k, here);
      }
    } else {
      hide AtLast;
      LastSection(p, section, key, b, sofar);
    }
  }

  // ---------- an existing key ----------

  /** In a text that is the same up to the value, the same key is found with its own line's end. */
  lemma {:induction false} FoundAlike(p: string, q: string, section: string, key: string, i: nat, sofar: Place)
    requires !sofar.Found?
    requires
      var r := Sections(p, section, key, i, sofar);
      r.Found? && Agree(p, q, r.valueS)
    ensures
      var r := Sections(p, section, key, i, sofar);
      Sections(q, section, key, i, sofar) == r.(valueE := LineEnd(q, r.valueS))
    decreases |p| - i, 1
  {
    hide Lines, ToBrace, SkipSpace, LineEnd, Prefix, Newline, Space, Agree;
    var m := Sections(p, section, key, i, sofar).valueS;
    SectionsAhead(p, section, key, i, sofar);
    if Header(p, i) {
      FoundAlikeHeader(p, q, section, key, i, sofar);
    } else {
      SectionsAhead(p, section, key, i + 1, sofar);
      FoundAlike(p, q, section, key, i + 1, sofar);
      AgreeAt(p, q, m, i);
    }
  }

  lemma AgreeAt(p: string, q: string, m: nat, i: nat)
    requires Agree(p, q, m) && i < m
    ensures i < |p| && i < |q| && Header(p, i) == Header(q, i)
  {
  }

  lemma {:induction false} FoundAlikeHeader(p: string, q: string, section: string, key: string, i: nat, sofar: Place)
    requires !sofar.Found? && i < |p| && Header(p, i)
    requires
      var r := Sections(p, section, key, i, sofar);
      r.Found? && Agree(p, q, r.valueS)
    ensures
      var r := Sections(p, section, key, i, sofar);
      Sections(q, section, key, i, sofar) == r.(valueE := LineEnd(q, r.valueS))
    decreases |p| - i, 0
  {
    hide Sections, Lines, ToBrace, SkipSpace, LineEnd, Prefix, Newline, Space, Agree;
    var m := Sections(p, section, key, i, sofar).valueS;
    var b := ToBrace(p, i + 1);
    var t := SkipSpace(p, b + 1);
    AtHeader(p, section, key, i, sofar, b, t);
    if Prefix(p[i + 1..b], section) {
      var r := Lines(p, key, t);
      if r.Stop? {
        SectionsAhead(p, section, key, r.k, NoKey(i + 1, t));
        StopAlike(p, q, m, key, t);
        FoundAlike(p, q, section, key, r.k, NoKey(i + 1, t));
      } else {
        KeyAlike(p, q, m, key, t);
      }
      SpaceAlike(p, q, m, b + 1);
    } else {
      SectionsAhead(p, section, key, b, sofar);
      FoundAlike(p, q, section, key, b, sofar);
    }
    HeaderAlike(p, q, m, i);
    AtHeader(q, section, key, i, sofar, b, SkipSpace(q, b + 1));
  }

  // ---------- a section without the key ----------

  /** A key that the parser can find again: no blank, '[' or ';' in front, no '=' and no newline. */
  predicate PlainKey(key: string) {
    && key != "" && !Space(key[0]) && key[0] != '[' && key[0] != ';'
    && forall k :: 0 <= k < |key| ==> key[k] != '=' && !Newline(key[k])
  }

  lemma {:induction false} NoEquals(q: string, j: nat, m: nat, e: nat)
    requires j <= m < e <= |q| && q[m] == '=' && forall k :: j <= k < m ==> q[k] != '='
    ensures Equals(q, j, e) == m
    decreases m - j
  {
    if j < m {
      NoEquals(q, j + 1, m, e);
    }
  }

  /** A line "key=" at i is found at once. */
  lemma KeyHere(q: string, key: string, i: nat)
    requires PlainKey(key) && i > 0 && i + |key| < |q| && q[i..i + |key|] == key && q[i + |key|] == '='
    ensures Lines(q, key, i) == Key(i, i + |key|, LineEnd(q, i + |key| + 1))
  {
    var m := i + |key|;
    forall k | i <= k < m ensures q[k] == key[k - i] {
      assert q[i..m][k - i] == key[k - i];
    }
    LineGoesOn(q, i, m + 1);
    NoEquals(q, i, m, LineEnd(q, i));
  }

  /** Where "key=" was put into p at m. */
  ghost predicate Inserted(p: string, q: string, key: string, m: nat) {
    Agree(p, q, m) && m + |key| < |q| && q[m..m + |key|] == key && q[m + |key|] == '='
  }

  /** The last matching section is at (secS, secE): with "key=" put at secE the key is found there. */
  lemma {:induction false} InsertFound(p: string, q: string, section: string, key: string, i: nat, sofar: Place, m: nat)
    requires PlainKey(key) && Inserted(p, q, key, m) && !sofar.Found? && (sofar.NoKey? ==> sofar.secS <= i)
    requires
      var r := Sections(p, section, key, i, sofar);
      r.NoKey? && r != sofar && r.secE == m
    ensures
      var r := Sections(p, section, key, i, sofar);
      Sections(q, section, key, i, sofar)
        == Found(r.secS, m, m, m + |key| - 1, m + |key| + 1, LineEnd(q, m + |key| + 1))
    decreases |p| - i, 2
  {
    hide Lines, ToBrace, SkipSpace, LineEnd, Prefix, Newline, Space, Agree, PlainKey;
    SectionsAhead(p, section, key, i, sofar);
    if Header(p, i) {
      InsertFoundHeader(p, q, section, key, i, sofar, m);
    } else {
      InsertFound(p, q, section, key, i + 1, sofar, m);
      AgreeAt(p, q, m, i);
    }
  }

  lemma {:induction false} InsertFoundHeader(
      p: string, q: string, section: string, key: string, i: nat, sofar: Place, m: nat)
    requires PlainKey(key) && Inserted(p, q, key, m) && !sofar.Found? && (sofar.NoKey? ==> sofar.secS <= i)
    requires i < |p| && Header(p, i)
    requires
      var r := Sections(p, section, key, i, sofar);
      r.NoKey? && r != sofar && r.secE == m
    ensures
      var r := Sections(p, section, key, i, sofar);
      Sections(q, section, key, i, sofar)
        == Found(r.secS, m, m, m + |key| - 1, m + |key| + 1, LineEnd(q, m + |key| + 1))
    decreases |p| - i, 1
  {
    hide Sections, Lines, ToBrace, SkipSpace, LineEnd, Prefix, Newline, Space, Agree, PlainKey;
    var b := ToBrace(p, i + 1);
    AtHeader(p, section, key, i, sofar, b, SkipSpace(p, b + 1));
    if Prefix(p[i + 1..b], section) {
      InsertFoundLines(p, q, section, key, i, b, m);
      SectionsAhead(p, section, key, Lines(p, key, SkipSpace(p, b + 1)).k, NoKey(i + 1, SkipSpace(p, b + 1)));
    } else {
      SectionsAhead(p, section, key, b, sofar);
      InsertFound(p, q, section, key, b, sofar, m);
    }
    HeaderAlike(p, q, m, i);
    AtHeader(q, section, key, i, sofar, b, SkipSpace(q, b + 1));
  }

  /** The lines of the matching section whose header is at i and closed at b. */
  lemma {:induction false} InsertFoundLines(p: string, q: string, section: string, key: string, i: nat, b: nat, m: nat)
    requires PlainKey(key) && Inserted(p, q, key, m) && i < b && i < |p|
    requires
      var t := SkipSpace(p, b + 1);
      Lines(p, key, t).Stop? &&
      var r := Sections(p, section, key, Lines(p, key, t).k, NoKey(i + 1, t));
      r.NoKey? && r.secE == m
    ensures
      var t, t' := SkipSpace(p, b + 1), SkipSpace(q, b + 1);
      var r := Sections(p, section, key, Lines(p, key, t).k, NoKey(i + 1, t));
      Found(r.secS, m, m, m + |key| - 1, m + |key| + 1, LineEnd(q, m + |key| + 1)) ==
        match Lines(q, key, t')
        case Key(s, j, e) => Found(i + 1, t', s, j - 1, j + 1, e)
        case Stop(k) => Sections(q, section, key, k, NoKey(i + 1, t'))
    decreases |p| - i, 0
  {
    hide Sections, Lines, ToBrace, SkipSpace, LineEnd, Prefix, Newline, Space, Agree, PlainKey;
    var t := SkipSpace(p, b + 1);
    var k := Lines(p, key, t).k;
    if Sections(p, section, key, k, NoKey(i + 1, t)) == NoKey(i + 1, t) {
      InsertHere(p, q, key, b + 1, m);
    } else {
      SectionsAhead(p, section, key, k, NoKey(i + 1, t));
      SpaceAlike(p, q, m, b + 1);
      StopAlike(p, q, m, key, t);
      InsertFound(p, q, section, key, k, NoKey(i + 1, t), m);
    }
  }

  lemma InsertHere(p: string, q: string, key: string, i: nat, m: nat)
    requires PlainKey(key) && Inserted(p, q, key, m) && i <= SkipSpace(p, i) == m && m > 0
    ensures SkipSpace(q, i) == m
    ensures Lines(q, key, m) == Key(m, m + |key|, LineEnd(q, m + |key| + 1))
  {
    assert q[m] == q[m..m + |key|][0];
    SpaceEndsAt(p, q, m, i);
    KeyHere(q, key, m);
  }

  // ---------- a new section ----------

  /** Going over the sections from i on, a header is met that nothing closes. */
  predicate OpenHeader(p: string, i: nat)
    decreases |p| - i
  {
    i < |p|
    && if Header(p, i) then ToBrace(p, i + 1) >= |p| || OpenHeader(p, ToBrace(p, i + 1)) else OpenHeader(p, i + 1)
  }

  lemma {:induction false} PassOver(p: string, q: string, section: string, key: string, i: nat)
    requires i <= |p| < |q| && Agree(p, q, |p|)
    requires Sections(p, section, key, i, NoSection) == NoSection && !OpenHeader(p, i)
    ensures Sections(q, section, key, i, NoSection) == Sections(q, section, key, |p|, NoSection)
    decreases |p| - i
  {
    hide Lines, SkipSpace, LineEnd, Prefix, Newline, Space, Agree;
    if i < |p| {
      AgreeAt(p, q, |p|, i);
      if Header(p, i) {
        var b := ToBrace(p, i + 1);
        NotThisSection(p, section, key, i);
        HeaderAlike(p, q, |p|, i);
        PassOver(p, q, section, key, b);
      } else {
        PassOver(p, q, section, key, i + 1);
      }
    }
  }

  lemma NotThisSection(p: string, section: string, key: string, i: nat)
    requires i < |p| && Header(p, i) && Sections(p, section, key, i, NoSection) == NoSection
    ensures !Prefix(p[i + 1..ToBrace(p, i + 1)], section)
    ensures Sections(p, section, key, ToBrace(p, i + 1), NoSection) == NoSection
  {
    var b := ToBrace(p, i + 1);
    var t := SkipSpace(p, b + 1);
    AtHeader(p, section, key, i, NoSection, b, t);
    hide Sections;
    var r := Lines(p, key, t);
    if r.Stop? {
      SectionsAhead(p, section, key, r.k, NoKey(i + 1, t));
    }
  }

  /** "[section]", a newline and "key=", at i. */
  ghost predicate NewAt(q: string, section: string, key: string, i: nat) {
    var k := i + |section| + 3;
    && k + |key| < |q| && q[i] == '[' && q[i + 1..i + 1 + |section|] == section && q[k - 2] == ']' && q[k - 1] == '\n'
    && q[k..k + |key|] == key && q[k + |key|] == '='
  }

  lemma {:induction false} BraceIsAt(q: string, i: nat, m: nat)
    requires i <= m < |q| && q[m] == ']' && forall k :: i <= k < m ==> q[k] != ']'
    ensures ToBrace(q, i) == m
    decreases m - i
  {
    if i < m {
      BraceIsAt(q, i + 1, m);
    }
  }

  lemma NewFound(q: string, section: string, key: string, i: nat)
    requires PlainKey(key) && ']' !in section && NewAt(q, section, key, i) && (i == 0 || Newline(q[i - 1]))
    ensures
      var k := i + |section| + 3;
      Sections(q, section, key, i, NoSection)
        == Found(i + 1, k, k, k + |key| - 1, k + |key| + 1, LineEnd(q, k + |key| + 1))
  {
    var k, b := i + |section| + 3, i + 1 + |section|;
    NewHeader(q, section, key, i);
    KeyHere(q, key, k);
    hide Sections, Lines, ToBrace, SkipSpace, PlainKey;
    AtHeader(q, section, key, i, NoSection, b, k);
  }

  lemma NewHeader(q: string, section: string, key: string, i: nat)
    requires PlainKey(key) && ']' !in section && NewAt(q, section, key, i)
    ensures
      var b := i + 1 + |section|;
      ToBrace(q, i + 1) == b && Prefix(q[i + 1..b], section) && SkipSpace(q, b + 1) == b + 2
  {
    var k, b := i + |section| + 3, i + 1 + |section|;
    forall j | i + 1 <= j < b ensures q[j] != ']' {
      assert q[j] == q[i + 1..b][j - i - 1];
    }
    BraceIsAt(q, i + 1, b);
    assert q[k] == q[k..k + |key|][0];
    assert section[..|section|] == section;
  }

  lemma {:induction false} NoHeadersNothing(q: string, section: string, key: string, i: nat, sofar: Place)
    requires forall j :: i <= j < |q| ==> !Header(q, j)
    ensures Sections(q, section, key, i, sofar) == sofar
    decreases |q| - i
  {
    if i < |q| {
      NoHeadersNothing(q, section, key, i + 1, sofar);
    }
  }

  /** An unclosed header swallows the new one, down to its ']' at m. */
  lemma {:induction false} Swallowed(p: string, q: string, section: string, key: string, i: nat, m: nat)
    requires i <= |p| < m < |q| && Agree(p, q, |p|) && Newline(q[|p|])
    requires q[m] == ']' && forall k :: |p| <= k < m ==> q[k] != ']'
    requires forall k :: 0 <= k < |section| ==> !Newline(section[k])
    requires Sections(p, section, key, i, NoSection) == NoSection && OpenHeader(p, i)
    ensures Sections(q, section, key, i, NoSection) == Sections(q, section, key, m, NoSection)
    decreases |p| - i
  {
    AgreeAt(p, q, |p|, i);
    if Header(p, i) {
      var b := ToBrace(p, i + 1);
      NotThisSection(p, section, key, i);
      if b >= |p| {
        SwallowedHere(p, q, section, i, m);
        hide Lines, SkipSpace, Prefix, Newline, Agree;
      } else {
        HeaderAlike(p, q, |p|, i);
        hide Lines, SkipSpace, Prefix, Newline, Agree, ToBrace;
        Swallowed(p, q, section, key, b, m);
      }
    } else {
      hide Lines, SkipSpace, Prefix, Newline, Agree;
      Swallowed(p, q, section, key, i + 1, m);
    }
  }

  lemma SwallowedHere(p: string, q: string, section: string, i: nat, m: nat)
    requires i < |p| < m < |q| && Agree(p, q, |p|) && Newline(q[|p|]) && ToBrace(p, i + 1) >= |p|
    requires q[m] == ']' && forall k :: |p| <= k < m ==> q[k] != ']'
    requires forall k :: 0 <= k < |section| ==> !Newline(section[k])
    ensures ToBrace(q, i + 1) == m && !Prefix(q[i + 1..m], section)
  {
    BraceIsAt(q, i + 1, m);
    assert q[i + 1..m][|p| - i - 1] == q[|p|];
  }

  // ---------- reading back what was written ----------

  ghost predicate OneLine(s: string) {
    forall k :: 0 <= k < |s| ==> !Newline(s[k])
  }

  /** The text has no unclosed header where it matters: at the section found last if the key is new, in
      front of the end if the section is new. */
  predicate Settled(p: string, section: string, key: string) {
    match Parse(p, section, key)
    case NoSection => !OpenHeader(p, 0)
    case NoKey(_, e) => e <= |p|
    case Found(_, _, _, _, _, _) => true
  }

  /** The written text up to the value, and behind it. */
  function Front(p: string, section: string, key: string): string {
    match Parse(p, section, key)
    case NoSection => (if p == "" then "" else p + "\n") + "[" + section + "]\n" + key + "="
    case NoKey(_, e) => if e <= |p| then p[..e] + key + "=" else p
    case Found(_, _, _, _, s, _) => if s <= |p| then p[..s] else p
  }

  function Rear(p: string, section: string, key: string): string {
    match Parse(p, section, key)
    case NoSection => "\n"
    case NoKey(_, e) => if e <= |p| then "\n" + p[e..] else ""
    case Found(_, _, _, _, _, e) => if e <= |p| then p[e..] else ""
  }

  lemma {:induction false} LineEndIsAt(q: string, i: nat, m: nat)
    requires i <= m <= |q| && (m < |q| ==> Newline(q[m])) && forall k :: i <= k < m ==> !Newline(q[k])
    ensures LineEnd(q, i) == m
    decreases m - i
  {
    if i < m {
      LineEndIsAt(q, i + 1, m);
    }
  }

  /** The value's line, when nothing but the value and a newline or the end follows. */
  lemma ValueLine(front: string, value: string, rear: string)
    requires OneLine(value) && (rear == "" || Newline(rear[0]))
    ensures LineEnd(front + value + rear, |front|) == |front| + |value|
  {
    LineEndIsAt(front + value + rear, |front|, |front| + |value|);
  }

  lemma WrittenOverKey(p: string, section: string, key: string, value: string)
    requires OneLine(value) && Parse(p, section, key).Found?
    ensures
      var f, r := Front(p, section, key), Rear(p, section, key);
      var q := f + value + r;
      && Write(p, section, key, value) == Some(q)
      && Parse(q, section, key).Found? && Parse(q, section, key).valueS == |f|
      && Parse(q, section, key).valueE == |f| + |value|
  {
    var f, r := Front(p, section, key), Rear(p, section, key);
    SectionsAhead(p, section, key, 0, NoSection);
    ValueLine(f, value, r);
    FoundAlike(p, f + value + r, section, key, 0, NoSection);
    hide Sections, LineEnd;
  }

  lemma WrittenIntoSection(p: string, section: string, key: string, value: string)
    requires OneLine(value) && PlainKey(key) && Parse(p, section, key).NoKey? && Settled(p, section, key)
    ensures
      var f, r := Front(p, section, key), Rear(p, section, key);
      var q := f + value + r;
      && (Write(p, section, key, value) == Some(q) || Write(p, section, key, value) == None)
      && Parse(q, section, key).Found? && Parse(q, section, key).valueS == |f|
      && Parse(q, section, key).valueE == |f| + |value|
  {
    var f, r := Front(p, section, key), Rear(p, section, key);
    var q, m := f + value + r, Parse(p, section, key).secE;
    ValueLine(f, value, r);
    assert q[m..m + |key|] == key;
    InsertFound(p, q, section, key, 0, NoSection, m);
    hide Sections, LineEnd;
    assert q == p[..m] + key + "=" + value + "\n" + p[m..];
  }

  lemma WrittenNewSection(p: string, section: string, key: string, value: string)
    requires OneLine(value) && PlainKey(key) && ']' !in section
    requires Parse(p, section, key) == NoSection && Settled(p, section, key)
    ensures
      var f, r := Front(p, section, key), Rear(p, section, key);
      var q := f + value + r;
      && Write(p, section, key, value) == Some(q)
      && Parse(q, section, key).Found? && Parse(q, section, key).valueS == |f|
      && Parse(q, section, key).valueE == |f| + |value|
  {
    var f, r := Front(p, section, key), Rear(p, section, key);
    var q := f + value + r;
    var i := if p == "" then 0 else |p| + 1;
    ValueLine(f, value, r);
    NewThere(p, section, key, value);
    hide LineEnd, PlainKey;
    NewFound(q, section, key, i);
    if p != "" {
      PassOver(p, q, section, key, 0);
      assert Sections(q, section, key, |p|, NoSection) == Sections(q, section, key, i, NoSection);
    }
    hide Sections, OpenHeader;
    assert q == (if p == "" then "" else p + "\n") + "[" + section + "]\n" + key + "=" + value + "\n";
  }

  lemma NewThere(p: string, section: string, key: string, value: string)
    requires Parse(p, section, key) == NoSection
    ensures
      var q := Front(p, section, key) + value + Rear(p, section, key);
      var i := if p == "" then 0 else |p| + 1;
      && NewAt(q, section, key, i) && |p| < |q| && Agree(p, q, |p|) && (p != "" ==> q[|p|] == '\n')
      && |Front(p, section, key)| == i + |section| + 3 + |key| + 1
  {
    hide Parse;
  }

  /** In every case but the unclosed header the written text is Front, value, Rear, and the key is found
      again exactly around the value. */
  lemma Written(p: string, section: string, key: string, value: string)
    requires OneLine(value) && PlainKey(key) && ']' !in section && Settled(p, section, key)
    ensures
      var f, r := Front(p, section, key), Rear(p, section, key);
      var q := f + value + r;
      && (Write(p, section, key, value) == Some(q) || Write(p, section, key, value) == None)
      && Parse(q, section, key).Found? && Parse(q, section, key).valueS == |f|
      && Parse(q, section, key).valueE == |f| + |value|
  {
    match Parse(p, section, key)
    case NoSection => WrittenNewSection(p, section, key, value);
    case NoKey(_, _) => WrittenIntoSection(p, section, key, value);
    case Found(_, _, _, _, _, _) => WrittenOverKey(p, section, key, value);
  }

  lemma UnsettledNotFound(p: string, section: string, key: string, value: string)
    requires OneLine(value) && PlainKey(key) && ']' !in section && OneLine(section) && !Settled(p, section, key)
    ensures Write(p, section, key, value).Some? && !Parse(Write(p, section, key, value).value, section, key).Found?
  {
    if Parse(p, section, key) == NoSection {
      var q := Write(p, section, key, value).value;
      SwallowedAll(p, q, section, key, value);
    }
  }

  lemma SwallowedAll(p: string, q: string, section: string, key: string, value: string)
    requires OneLine(value) && PlainKey(key) && ']' !in section && OneLine(section)
    requires Parse(p, section, key) == NoSection && OpenHeader(p, 0)
    requires q == p + "\n" + "[" + section + "]\n" + key + "=" + value + "\n"
    ensures Parse(q, section, key) == NoSection
  {
    var m := |p| + 2 + |section|;
    assert q[m..] == "]\n" + key + "=" + value + "\n";
    Swallowed(p, q, section, key, 0, m);
    forall j | m <= j < |q| ensures !Header(q, j) {
      assert q[j] == q[m..][j - m];
      assert j > m ==> q[j - 1] == q[m..][j - 1 - m];
    }
    NoHeadersNothing(q, section, key, m, NoSection);
  }

  /** What is written is read back, cut to the buffer, exactly when no unclosed header is in the way. */
  lemma ReadAfterWrite(p: string, section: string, key: string, value: string, size: nat)
    requires OneLine(value) && PlainKey(key) && ']' !in section && OneLine(section) && size > 0
    ensures
      var w := Write(p, section, key, value);
      w.Some? ==>
        (Read(w.value, section, key, size) == Some(Truncate(value, size)) <==> Settled(p, section, key))
  {
    if Settled(p, section, key) {
      Written(p, section, key, value);
      var f, r := Front(p, section, key), Rear(p, section, key);
      hide Front, Rear, Write, Parse;
      assert (f + value + r)[|f|..|f| + |value|] == value;
    } else {
      UnsettledNotFound(p, section, key, value);
    }
  }

  /** What a write does to the text. A found value alone is exchanged, by the value just as given; a line put in
      pushes the rest apart; a new section comes behind everything. There is no outcome exactly when a '%' stands
      behind a line put in. */
  lemma RestKept(p: string, section: string, key: string, value: string, size: nat)
    returns (i: nat, j: nat, middle: string)
    requires size > |p|
    ensures i <= j <= |p|
    ensures Write(p, section, key, value).Some? ==> Write(p, section, key, value).value == p[..i] + middle + p[j..]
    ensures Write(p, section, key, value) == None <==> Read(p, section, key, size) == None && '%' in p[i..]
    ensures Read(p, section, key, size).Some? ==>
              middle == value && Read(p, section, key, size) == Some(p[i..j])
    ensures Read(p, section, key, size) == None ==> i == j
    ensures Parse(p, section, key) == NoSection ==>
              i == |p| && Write(p, section, key, value).Some? && '[' in middle
  {
    SectionsAhead(p, section, key, 0, NoSection);
    hide Sections;
    var place := Parse(p, section, key);
    match place
    case NoSection =>
      i, j, middle := |p|, |p|, (if p == "" then "" else "\n") + "[" + section + "]\n" + key + "=" + value + "\n";
      assert p[..i] == p && p[j..] == "";
    case NoKey(_, e) =>
      if e > |p| { i, j, middle := |p|, |p|, ""; }
      else { i, j, middle := e, e, key + "=" + value + "\n"; }
    case Found(_, _, _, _, s, e) =>
      i, j, middle := s, e, value;
  }

  /** Writing a key twice leaves the file that writing it the second time only would have left. */
  lemma LastWriteWins(p: string, section: string, key: string, v1: string, v2: string)
    requires OneLine(v1) && OneLine(v2) && PlainKey(key) && ']' !in section && Settled(p, section, key)
    requires Write(p, section, key, v1).Some?
    ensures Write(Write(p, section, key, v1).value, section, key, v2) == Write(p, section, key, v2)
  {
    Written(p, section, key, v1);
    Written(p, section, key, v2);
    SameFailure(p, section, key, v1, v2);
    var f, r := Front(p, section, key), Rear(p, section, key);
    var q := f + v1 + r;
    hide Parse, Front, Rear;
    assert q[..|f|] == f && q[|f| + |v1|..] == r;
  }

  lemma SameFailure(p: string, section: string, key: string, v1: string, v2: string)
    ensures Write(p, section, key, v1) == None <==> Write(p, section, key, v2) == None
  {
  }
}
